/** Readlink() as the program runs it: a fixed assembly buffer, and a stack of
    spellings that outlives the call. */
module Readlink {
  import opened Common
  import opened FileSystem
  import opened PathSpeller

  /** The buffer holds the C string `s`. */
  ghost predicate Holds(buf: array<char>, s: string)
    reads buf
  {
    |s| < buf.Length && buf[..|s|] == s && buf[|s|] == '\0' && '\0' !in s
  }

  /** strncpy() of `s` at `at`, and the terminator after it. */
  method CopyAt(buf: array<char>, at: nat, s: string)
    requires at + |s| < buf.Length
    modifies buf
    ensures buf[..at + |s|] == old(buf[..at]) + s && buf[at + |s|] == '\0'
  {
    var i := 0;
    while i < |s|
      invariant 0 <= i <= |s|
      invariant buf[..at + i] == old(buf[..at]) + s[..i]
    {
      buf[at + i] := s[i];
      i := i + 1;
    }
    assert s[..i] == s;
    buf[at + i] := '\0';
  }

  /** When a call stacks something and then fails */
  lemma StackLeft(fs: FS, klim: nat, arg: string, sx: nat)
    requires sx <= MAXSYMLINKS
    ensures Spell(fs, klim, arg, sx).TooLong? <==> Nth(fs, klim, arg, MAXSYMLINKS + 1 - sx).None?
    ensures Spell(fs, klim, arg, sx).TooLong? ==> (Stacked(fs, klim, arg, sx) != [] <==> Nth(fs, klim, arg, 1).Some?)
  {
    TooLongWhen(fs, klim, arg, sx);
    if Assemble(fs, klim, arg, 0, "").Some? {
      assert Nth(fs, klim, Assemble(fs, klim, arg, 0, "").value, 0).Some?;
    }
  }

  lemma AssembledNonEmpty(fs: FS, klim: nat, arg: string)
    requires WellFormed(fs) && arg != "" && Assemble(fs, klim, arg, 0, "").Some?
    ensures Assemble(fs, klim, arg, 0, "").value != ""
  {
    PassKeepsMeaning(fs, klim, arg);
  }

  class Speller {
    const fs: FS
    const klim: nat
    var stk: seq<string> // Readlink_stk[0..Readlink_sx]
    ghost var passes: nat // assembly passes made

    ghost predicate Valid()
      reads this
    {
      WellFormed(fs) && |stk| <= MAXSYMLINKS
    }

    constructor (fs: FS, klim: nat)
      requires WellFormed(fs)
      ensures Valid() && this.fs == fs && this.klim == klim && stk == [] && passes == 0
    {
      this.fs, this.klim, stk, passes := fs, klim, [], 0;
    }

    /** One assembly pass, written into `abuf` without leaving it. */
    method Pass(arg: string, abuf: array<char>) returns (ok: bool, alen: nat)
      requires Valid() && arg != "" && '\0' !in arg && abuf.Length == MAXPATHLEN + 1
      modifies abuf, this`passes
      ensures alen < abuf.Length && passes == old(passes) + 1
      ensures ok == Assemble(fs, klim, arg, 0, "").Some?
      ensures ok ==> Holds(abuf, abuf[..alen]) && Assemble(fs, klim, arg, 0, "") == Some(abuf[..alen])
    {
      hide Extend, Append;
      passes := passes + 1;
      alen := 0;
      var argp1 := 0;
      abuf[0] := '\0';
      while argp1 < |arg|
        invariant argp1 <= |arg| && alen < abuf.Length && passes == old(passes) + 1
        invariant Holds(abuf, abuf[..alen])
        invariant Assemble(fs, klim, arg, 0, "") == Assemble(fs, klim, arg, argp1, abuf[..alen])
      {
        var argp2 := argp1 + 1;
        while argp2 < |arg| && arg[argp2] != '/'
          invariant argp1 < argp2 <= |arg| && SegmentEnd(arg, argp2) == SegmentEnd(arg, argp1 + 1)
        {
          argp2 := argp2 + 1;
        }
        ok, alen := Turn(arg, argp1, argp2, abuf, alen);
        if !ok {
          return;
        }
        argp1 := argp2;
      }
      ok := true;
    }

    /** The body of the component loop. */
    method Turn(arg: string, argp1: nat, argp2: nat, abuf: array<char>, from: nat) returns (ok: bool, alen: nat)
      requires Valid() && '\0' !in arg && argp1 < argp2 <= |arg|
      requires abuf.Length == MAXPATHLEN + 1 && from < abuf.Length && Holds(abuf, abuf[..from])
      modifies abuf
      ensures alen < abuf.Length
      ensures var r := Extend(fs, klim, arg, argp1, argp2, old(abuf[..from]));
              ok == r.Some? && (ok ==> Holds(abuf, abuf[..alen]) && r == Some(abuf[..alen]))
    {
      alen := from;
      if argp2 >= MAXPATHLEN + 1 {
        return false, alen;
      }
      var link := SysReadlink(fs, klim, arg[..argp2]);
      if link.Some? {
        LinkTextFits(fs, klim, arg[..argp2]);
      }
      if link.Some? && Absolute(link.value) {
        CopyAt(abuf, 0, link.value);
        assert abuf[..|link.value|] == link.value;
        return true, |link.value|;
      }
      ok, alen := AddPiece(arg, abuf, from, if link.Some? then link.value else arg[argp1..argp2], link.Some?);
    }

    /** Adds a piece, and the slash before it where one is needed. */
    method AddPiece(arg: string, abuf: array<char>, from: nat, s1: string, isLink: bool) returns (ok: bool, alen: nat)
      requires arg != "" && s1 != "" && '\0' !in s1
      requires abuf.Length == MAXPATHLEN + 1 && from < abuf.Length && Holds(abuf, abuf[..from])
      modifies abuf
      ensures alen < abuf.Length
      ensures var r := Append(arg, old(abuf[..from]), s1, isLink);
              ok == r.Some? && (ok ==> Holds(abuf, abuf[..alen]) && r == Some(abuf[..alen]))
    {
      alen := from;
      var sl := Separator(arg, abuf, alen, s1, isLink);
      ok := alen + |s1| + |sl| < MAXPATHLEN;
      if ok {
        CopyAt(abuf, alen, sl + s1);
        alen := alen + |sl + s1|;
        assert abuf[..alen] == old(abuf[..from]) + sl + s1;
      }
    }

    /** The choice of `slen`: whether a slash must part the piece from the assembly. */
    method Separator(arg: string, abuf: array<char>, alen: nat, s1: string, isLink: bool) returns (sl: string)
      requires arg != "" && alen < abuf.Length && s1 != ""
      ensures sl == if NeedsSlash(arg, abuf[..alen], s1, isLink) then "/" else ""
    {
      if s1[0] == '/' {
        sl := "";
      } else if alen > 0 {
        sl := if abuf[alen - 1] == '/' then "" else "/";
      } else {
        sl := if isLink && arg[0] == '/' then "/" else "";
      }
    }

    /**
     * Readlink().  A result or the link limit empties the stack.  A path too
     * long for the buffers leaves on it the spellings of this call and of
     * earlier ones; the last clause says when that happens.
     */
    method Spell(arg: string) returns (r: Outcome)
      requires Valid() && arg != "" && '\0' !in arg
      modifies this
      ensures Valid()
      ensures r == PathSpeller.Spell(fs, klim, arg, old(|stk|))
      ensures passes == old(passes) + Passes(fs, klim, arg, old(|stk|)) <= old(passes) + MAXSYMLINKS + 1 - old(|stk|)
      ensures stk == if r.TooLong? then old(stk) + Stacked(fs, klim, arg, old(|stk|)) else []
      ensures stk != [] <==> (old(stk) != [] || Nth(fs, klim, arg, 1).Some?)
                             && Nth(fs, klim, arg, MAXSYMLINKS + 1 - old(|stk|)).None?
    {
      hide Nth, Assemble, Stacked, Passes, PathSpeller.Spell;
      StackLeft(fs, klim, arg, |stk|);
      r := Respell(arg);
    }

    /** The passes of Readlink() */
    method Respell(arg: string) returns (r: Outcome)
      requires Valid() && arg != "" && '\0' !in arg
      modifies this
      ensures Valid()
      ensures r == PathSpeller.Spell(fs, klim, arg, old(|stk|))
      ensures passes == old(passes) + Passes(fs, klim, arg, old(|stk|))
      ensures stk == if r.TooLong? then old(stk) + Stacked(fs, klim, arg, old(|stk|)) else []
      decreases MAXSYMLINKS - |stk|
    {
      hide Assemble, Nth;
      var abuf := new char[MAXPATHLEN + 1];
      var ok, alen := Pass(arg, abuf);
      if !ok {
        return TooLong;
      }
      var a := abuf[..alen];
      if a == arg {
        stk := [];
        return Spelled(arg);
      }
      if |stk| >= MAXSYMLINKS {
        stk := [];
        return TooManyLinks;
      }
      stk := stk + [a];
      AssembledNonEmpty(fs, klim, arg);
      r := Respell(a);
      assert old(stk) + [a] + Stacked(fs, klim, a, old(|stk|) + 1) == old(stk) + ([a] + Stacked(fs, klim, a, old(|stk|) + 1));
    }
  }
}
