/** Which passes of Readlink() fit its buffers, over lengths alone, and which
    paths it is therefore sure to spell. */
module PathLengths {
  import opened Common
  import opened FileSystem
  import opened PathSpeller

  // ----- Exactly when a pass succeeds -----

  predicate EndsInSlash(s: string) {
    s != "" && s[|s| - 1] == '/'
  }

  /**
   * The components from `pos` on fit, after an assembly of `len` characters.
   * A component that is no link adds its own length.  A relative link adds that
   * of its text, and one for a slash if `open` says that a slash is missing
   * there.  An absolute link starts anew.
   */
  predicate Fits(fs: FS, klim: nat, arg: string, pos: nat, len: nat, open: bool)
    requires pos <= |arg|
    decreases |arg| - pos
  {
    pos == |arg| ||
    var end := SegmentEnd(arg, pos + 1);
    && end <= MAXPATHLEN
    && match SysReadlink(fs, klim, arg[..end])
       case None =>
         len + (end - pos) < MAXPATHLEN && Fits(fs, klim, arg, end, len + (end - pos), arg[end - 1] != '/')
       case Some(t) =>
         if Absolute(t) then Fits(fs, klim, arg, end, |t|, !EndsInSlash(t))
         else
           var more := |t| + if open then 1 else 0;
           len + more < MAXPATHLEN && Fits(fs, klim, arg, end, len + more, !EndsInSlash(t))
  }

  /** A slash must part a relative piece from the assembly. */
  predicate Open(arg: string, abuf: string) {
    if abuf == "" then Absolute(arg) else !EndsInSlash(abuf)
  }

  /** A piece that is no link brings its own slash, unless it is the first. */
  lemma PlainPiece(arg: string, pos: nat, end: nat, abuf: string)
    requires pos < end <= |arg| && (pos == 0 <==> abuf == "") && (pos > 0 ==> arg[pos] == '/')
    ensures var r := Append(arg, abuf, arg[pos..end], false);
            && (r.Some? <==> |abuf| + (end - pos) < MAXPATHLEN)
            && (r.Some? ==> |r.value| == |abuf| + (end - pos) && Open(arg, r.value) == (arg[end - 1] != '/'))
  {
    var piece := arg[pos..end];
    assert piece[0] == arg[pos] && piece[|piece| - 1] == arg[end - 1];
    hide EndsInSlash;
    LastOf(abuf, piece);
  }

  lemma LastOf(a: string, b: string)
    requires b != ""
    ensures a + "" + b == a + b && EndsInSlash(a + b) == EndsInSlash(b) == (b[|b| - 1] == '/')
  {
  }

  lemma LinkPiece(arg: string, abuf: string, t: string)
    requires arg != "" && t != "" && !Absolute(t)
    ensures var r, n := Append(arg, abuf, t, true), |abuf| + |t| + if Open(arg, abuf) then 1 else 0;
            && (r.Some? <==> n < MAXPATHLEN)
            && (r.Some? ==> |r.value| == n && Open(arg, r.value) == !EndsInSlash(t))
  {
  }

  /** A pass succeeds if and only if the lengths fit. */
  lemma {:induction false} PassFits(fs: FS, klim: nat, arg: string, pos: nat, abuf: string)
    requires WellFormed(fs) && pos <= |arg| && (pos == 0 <==> abuf == "") && (0 < pos < |arg| ==> arg[pos] == '/')
    ensures Assemble(fs, klim, arg, pos, abuf).Some? <==> Fits(fs, klim, arg, pos, |abuf|, Open(arg, abuf))
    decreases |arg| - pos
  {
    hide Append, SysReadlink, Open, EndsInSlash, SegmentEnd, Absolute;
    if pos < |arg| {
      var end := SegmentEnd(arg, pos + 1);
      var link := SysReadlink(fs, klim, arg[..end]);
      if link.None? {
        PlainPiece(arg, pos, end, abuf);
      } else {
        LinkTextFits(fs, klim, arg[..end]);
        if Absolute(link.value) { OpenText(arg, link.value); } else { LinkPiece(arg, abuf, link.value); }
      }
      var r := Extend(fs, klim, arg, pos, end, abuf);
      if r.Some? { PassFits(fs, klim, arg, end, r.value); }
    }
  }

  lemma OpenText(arg: string, t: string)
    requires t != ""
    ensures Open(arg, t) == !EndsInSlash(t)
  {
  }

  // ----- A bound on the lengths -----

  /** The lengths of the link texts a pass meets, with a slash each */
  function LinkRoom(fs: FS, klim: nat, arg: string, pos: nat): nat
    requires pos <= |arg|
    decreases |arg| - pos
  {
    if pos == |arg| then 0
    else
      var end := SegmentEnd(arg, pos + 1);
      var link := SysReadlink(fs, klim, arg[..end]);
      (if link.Some? then |link.value| + 1 else 0) + LinkRoom(fs, klim, arg, end)
  }

  lemma {:induction false} RoomFits(fs: FS, klim: nat, arg: string, pos: nat, len: nat, open: bool)
    requires pos <= |arg| <= MAXPATHLEN && len + (|arg| - pos) + LinkRoom(fs, klim, arg, pos) < MAXPATHLEN
    ensures Fits(fs, klim, arg, pos, len, open)
    decreases |arg| - pos
  {
    hide SysReadlink, EndsInSlash;
    if pos < |arg| {
      var end := SegmentEnd(arg, pos + 1);
      match SysReadlink(fs, klim, arg[..end])
      case None => RoomFits(fs, klim, arg, end, len + (end - pos), arg[end - 1] != '/');
      case Some(t) =>
        if Absolute(t) {
          RoomFits(fs, klim, arg, end, |t|, !EndsInSlash(t));
        } else {
          RoomFits(fs, klim, arg, end, len + |t| + if open then 1 else 0, !EndsInSlash(t));
        }
    }
  }

  /** A path that leaves room for the links it names survives a pass, and is not
      longer than that afterwards. */
  lemma PassSucceeds(fs: FS, klim: nat, arg: string)
    requires WellFormed(fs) && arg != "" && |arg| + LinkRoom(fs, klim, arg, 0) < MAXPATHLEN
    ensures var r := Assemble(fs, klim, arg, 0, ""); r.Some? && |r.value| <= |arg| + LinkRoom(fs, klim, arg, 0)
  {
    hide Fits, LinkRoom;
    RoomFits(fs, klim, arg, 0, 0, Open(arg, ""));
    PassFits(fs, klim, arg, 0, "");
    PassLength(fs, klim, arg, 0, "");
  }

  lemma {:induction false} PassLength(fs: FS, klim: nat, arg: string, pos: nat, abuf: string)
    requires WellFormed(fs) && pos <= |arg| && (pos == 0 <==> abuf == "") && (0 < pos < |arg| ==> arg[pos] == '/')
    requires Assemble(fs, klim, arg, pos, abuf).Some?
    ensures |Assemble(fs, klim, arg, pos, abuf).value| <= |abuf| + (|arg| - pos) + LinkRoom(fs, klim, arg, pos)
    decreases |arg| - pos
  {
    hide Append, SysReadlink, Open, EndsInSlash, SegmentEnd, Absolute;
    if pos < |arg| {
      var end := SegmentEnd(arg, pos + 1);
      var link := SysReadlink(fs, klim, arg[..end]);
      if link.None? {
        PlainPiece(arg, pos, end, abuf);
      } else {
        LinkTextFits(fs, klim, arg[..end]);
        if !Absolute(link.value) { LinkPiece(arg, abuf, link.value); }
      }
      PassLength(fs, klim, arg, end, Extend(fs, klim, arg, pos, end, abuf).value);
    }
  }

  // ----- The paths that are spelled -----

  /** No link text is longer than `m`. */
  ghost predicate TextsUpTo(fs: FS, m: nat) {
    forall n | n in fs.inodes && fs.inodes[n].Link? :: |fs.inodes[n].text| <= m
  }

  lemma TextLength(fs: FS, klim: nat, p: string, m: nat)
    requires TextsUpTo(fs, m) && SysReadlink(fs, klim, p).Some?
    ensures |SysReadlink(fs, klim, p).value| <= m
  {
  }

  lemma {:induction false} RoomBound(fs: FS, klim: nat, arg: string, pos: nat, m: nat)
    requires pos <= |arg| && TextsUpTo(fs, m)
    ensures LinkRoom(fs, klim, arg, pos) <= LinksMet(fs, klim, arg, pos) * (m + 1)
    decreases |arg| - pos
  {
    hide SysReadlink, TextsUpTo;
    if pos < |arg| {
      var end := SegmentEnd(arg, pos + 1);
      RoomBound(fs, klim, arg, end, m);
      if SysReadlink(fs, klim, arg[..end]).Some? { TextLength(fs, klim, arg[..end], m); }
      OneMoreTimes(LinksMet(fs, klim, arg, end), m + 1);
    }
  }

  lemma OneMoreTimes(a: nat, b: nat)
    ensures (1 + a) * b == b + a * b
  {
  }

  lemma Fewer(a: nat, b: nat, c: nat, m: nat)
    requires a + b <= c
    ensures a * m + b * m <= c * m
  {
    assert (a + b) * m <= c * m;
  }

  /**
   * Every path that resolves is spelled, if the links it takes are within the
   * limit and the path with all their texts, and a slash each, fits the buffer.
   */
  lemma {:induction false} SpelledWhen(fs: FS, klim: nat, arg: string, sx: nat, m: nat)
    requires WellFormed(fs) && arg != "" && sx <= MAXSYMLINKS && TextsUpTo(fs, m) && Meaning(fs, arg).Some?
    requires sx + Meaning(fs, arg).value.links <= MAXSYMLINKS
    requires |arg| + Meaning(fs, arg).value.links * (m + 1) < MAXPATHLEN
    ensures Spell(fs, klim, arg, sx).Spelled?
    decreases MAXSYMLINKS - sx
  {
    hide Assemble, LinkRoom, LinksMet, Meaning, TextsUpTo, WellFormed;
    var c := Meaning(fs, arg).value.links;
    var s := LinksMet(fs, klim, arg, 0);
    PassWithin(fs, klim, arg, m);
    var a := Assemble(fs, klim, arg, 0, "").value;
    if a != arg {
      ChangeSheds(fs, klim, arg);
      PassKeepsMeaning(fs, klim, arg);
      var c' := Meaning(fs, a).value.links;
      Fewer(c', s, c, m + 1);
      SpelledWhen(fs, klim, a, sx + 1, m);
    }
  }

  /** A pass meets no more links than resolution takes, so it succeeds. */
  lemma PassWithin(fs: FS, klim: nat, arg: string, m: nat)
    requires WellFormed(fs) && arg != "" && TextsUpTo(fs, m) && Meaning(fs, arg).Some?
    requires |arg| + Meaning(fs, arg).value.links * (m + 1) < MAXPATHLEN
    ensures LinksMet(fs, klim, arg, 0) <= Meaning(fs, arg).value.links
    ensures var r := Assemble(fs, klim, arg, 0, "");
            r.Some? && |r.value| <= |arg| + LinksMet(fs, klim, arg, 0) * (m + 1)
  {
    hide Assemble, LinkRoom, LinksMet, Meaning, TextsUpTo, WellFormed;
    assert arg[..|arg|] == arg;
    MetAreTaken(fs, klim, arg, 0);
    Fewer(LinksMet(fs, klim, arg, 0), 0, Meaning(fs, arg).value.links, m + 1);
    RoomBound(fs, klim, arg, 0, m);
    PassSucceeds(fs, klim, arg);
  }

  lemma {:induction false} MetAreTaken(fs: FS, klim: nat, arg: string, pos: nat)
    requires pos <= |arg| && (0 < pos < |arg| ==> arg[pos] == '/')
    requires PrefixMeaning(fs, arg, pos).Some? && PrefixMeaning(fs, arg, |arg|).Some?
    ensures PrefixMeaning(fs, arg, pos).value.links + LinksMet(fs, klim, arg, pos) <=
            PrefixMeaning(fs, arg, |arg|).value.links
    decreases |arg| - pos
  {
    hide Den, Split, SysReadlink, NameAt, Meaning;
    if pos < |arg| {
      var end := SegmentEnd(arg, pos + 1);
      PrefixResolves(fs, arg, end);
      SegmentMeaning(fs, arg, pos, end);
      if SysReadlink(fs, klim, arg[..end]).Some? { LinkMeaning(fs, klim, arg, pos, end); }
      MetAreTaken(fs, klim, arg, end);
    }
  }
}
