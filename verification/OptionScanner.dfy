/** GetOpt() and the option loop that may rewind it (src/main.c). */
module OptionScanner {
  import opened Common

  /** What one turn of the option loop is given: the prefix ('-' or '+'), the
      option character as GetOpt() returns it, its value and the error mark. */
  datatype Item = Item(prefix: char, code: int, value: Option<string>, err: nat)

  /** What the loop makes of a value: its option's, or to be read again as
      option characters from offset `n`. */
  datatype Decision = Keep | Back(n: nat)

  type Caller = (Item, string) -> Decision

  /** Rereading starts at a character of the value, or at its beginning. */
  ghost predicate Sound(caller: Caller) {
    forall i, v :: caller(i, v).Back? ==> caller(i, v).n < |v| || caller(i, v).n == 0
  }

  /** A character as the int of a signed char */
  function Code(c: char): int {
    (c as int + 128) % 256 - 128
  }

  const EOF := -1

  // ----- The grammar -----

  /** How the rules describe an option character: strchr() and the colon after it */
  datatype Rule = Unknown | Alone | MayHaveValue

  function RuleOf(rules: string, c: char): Rule {
    if rules == "" then Unknown
    else if rules[0] != c then RuleOf(rules[1..], c)
    else if |rules| > 1 && rules[1] == ':' then MayHaveValue
    else Alone
  }

  predicate IsOption(arg: string) {
    |arg| > 1 && (arg[0] == '-' || arg[0] == '+')
  }

  predicate EndsOptions(arg: string) {
    arg == "--" || arg == "++"
  }

  /** What an argument list means: the options, then the operands */
  datatype Meaning = Meaning(items: seq<Item>, operands: seq<string>)

  function Cons(i: Item, m: Meaning): Meaning {
    Meaning([i] + m.items, m.operands)
  }

  function Weight(args: seq<string>): nat {
    if args == [] then 0 else |args[0]| + 1 + Weight(args[1..])
  }

  /** The arguments from an argument boundary on.  `stop` says whether an option
      character that reads as EOF ends the options, as it does in the program. */
  function Args(stop: bool, rules: string, caller: Caller, args: seq<string>): Meaning
    requires Sound(caller)
    decreases Weight(args), 0
  {
    if args == [] || !IsOption(args[0]) then Meaning([], args)
    else if EndsOptions(args[0]) then Meaning([], args[1..])
    else Letters(stop, rules, caller, args[0][0], args[0], 1, args[1..])
  }

  /** The option characters of `arg` from `at` on, then the other arguments */
  function Letters(stop: bool, rules: string, caller: Caller, prefix: char, arg: string, at: nat, rest: seq<string>): Meaning
    requires Sound(caller) && at < |arg|
    decreases Weight(rest) + |arg| - at, 1
  {
    var c := arg[at];
    if stop && Code(c) == EOF then Meaning([], if at + 1 < |arg| then [arg] + rest else rest)
    else if c == ':' then Cons(Item(prefix, Code(c), None, 1), More(stop, rules, caller, prefix, arg, at + 1, rest))
    else
      match RuleOf(rules, c)
      case Unknown => Cons(Item(prefix, Code(c), None, 2), More(stop, rules, caller, prefix, arg, at + 1, rest))
      case Alone => Cons(Item(prefix, Code(c), None, 0), More(stop, rules, caller, prefix, arg, at + 1, rest))
      case MayHaveValue =>
        if at + 1 < |arg| then
          var v := arg[at + 1..];
          var item := Item(prefix, Code(c), Some(v), 0);
          match caller(item, v)
          case Keep => Cons(item, Args(stop, rules, caller, rest))
          case Back(n) => Cons(item, Letters(stop, rules, caller, prefix, arg, at + 1 + n, rest))
        else if rest == [] || rest[0] == "--" then
          Cons(Item(prefix, Code(c), None, 0), Args(stop, rules, caller, rest))
        else
          var v := rest[0];
          var item := Item(prefix, Code(c), Some(v), 0);
          match caller(item, v)
          case Keep => Cons(item, Args(stop, rules, caller, rest[1..]))
          case Back(n) =>
            Cons(item, if n == 0 then Args(stop, rules, caller, rest) else Letters(stop, rules, caller, prefix, v, n, rest[1..]))
  }

  function More(stop: bool, rules: string, caller: Caller, prefix: char, arg: string, at: nat, rest: seq<string>): Meaning
    requires Sound(caller) && at <= |arg|
    decreases Weight(rest) + |arg| - at, 2
  {
    if at == |arg| then Args(stop, rules, caller, rest) else Letters(stop, rules, caller, prefix, arg, at, rest)
  }

  // ----- The scanner -----

  /** A place in the argument array: GOx1 and GOx2, or GObk */
  datatype Place = Place(x1: nat, x2: nat) {
    predicate Before(p: Place) {
      x1 < p.x1 || (x1 == p.x1 && x2 < p.x2)
    }
  }

  /** What an argument array means from a place on, read with a prefix */
  ghost function From(rules: string, caller: Caller, argv: seq<string>, prefix: char, p: Place): Meaning
    requires Sound(caller) && p.x1 <= |argv| && (p.x2 > 0 ==> InArg(argv, p))
  {
    if p.x2 == 0 then Args(true, rules, caller, argv[p.x1..])
    else Letters(true, rules, caller, prefix, argv[p.x1], p.x2, argv[p.x1 + 1..])
  }

  predicate InArg(argv: seq<string>, p: Place) {
    p.x1 < |argv| && p.x2 < |argv[p.x1]|
  }

  /** The place after an option character */
  function Next(argv: seq<string>, p: Place): (p': Place)
    requires InArg(argv, p)
    ensures p.Before(p') && p'.x1 <= |argv| && (p'.x2 > 0 ==> InArg(argv, p'))
  {
    if p.x2 + 1 == |argv[p.x1]| then Place(p.x1 + 1, 0) else Place(p.x1, p.x2 + 1)
  }

  lemma SliceAt(argv: seq<string>, x: nat)
    requires x < |argv|
    ensures argv[x..] == [argv[x]] + argv[x + 1..]
    ensures argv[x..][0] == argv[x] && argv[x..][1..] == argv[x + 1..]
  {
  }

  lemma FromStart(rules: string, caller: Caller, argv: seq<string>, prefix: char)
    requires Sound(caller)
    ensures From(rules, caller, argv, prefix, Place(0, 0)) == Args(true, rules, caller, argv)
  {
    assert argv[0..] == argv;
  }

  /** No more options */
  lemma FromEnd(rules: string, caller: Caller, argv: seq<string>, prefix: char, x: nat)
    requires Sound(caller) && x <= |argv| && (x == |argv| || !IsOption(argv[x]) || EndsOptions(argv[x]))
    ensures From(rules, caller, argv, prefix, Place(x, 0))
         == Meaning([], if x < |argv| && EndsOptions(argv[x]) then argv[x + 1..] else argv[x..])
  {
    if x < |argv| { SliceAt(argv, x); }
  }

  /** Entering an option argument */
  lemma FromOption(rules: string, caller: Caller, argv: seq<string>, prefix: char, x: nat)
    requires Sound(caller) && x < |argv| && IsOption(argv[x]) && !EndsOptions(argv[x])
    ensures From(rules, caller, argv, prefix, Place(x, 0)) == From(rules, caller, argv, argv[x][0], Place(x, 1))
  {
    SliceAt(argv, x);
  }

  /** An option character without a value */
  lemma FromLetter(rules: string, caller: Caller, argv: seq<string>, prefix: char, p: Place, err: nat)
    requires Sound(caller) && p.x2 > 0 && InArg(argv, p)
    requires Code(argv[p.x1][p.x2]) != EOF
    requires
      var c := argv[p.x1][p.x2];
      if c == ':' then err == 1 else if RuleOf(rules, c).Unknown? then err == 2 else RuleOf(rules, c).Alone? && err == 0
    ensures From(rules, caller, argv, prefix, p)
         == Cons(Item(prefix, Code(argv[p.x1][p.x2]), None, err), From(rules, caller, argv, prefix, Next(argv, p)))
  {
    var rest := argv[p.x1 + 1..];
    assert More(true, rules, caller, prefix, argv[p.x1], p.x2 + 1, rest) == From(rules, caller, argv, prefix, Next(argv, p));
    assert Letters(true, rules, caller, prefix, argv[p.x1], p.x2, rest)
        == Cons(Item(prefix, Code(argv[p.x1][p.x2]), None, err), More(true, rules, caller, prefix, argv[p.x1], p.x2 + 1, rest));
  }

  /** The character that reads as EOF */
  lemma FromStop(rules: string, caller: Caller, argv: seq<string>, prefix: char, p: Place)
    requires Sound(caller) && p.x2 > 0 && InArg(argv, p) && Code(argv[p.x1][p.x2]) == EOF
    ensures From(rules, caller, argv, prefix, p) == Meaning([], argv[Next(argv, p).x1..])
  {
    SliceAt(argv, p.x1);
  }

  /** Where the loop goes on after a value found at `back` */
  function Resume(d: Decision, back: Place): Place {
    match d
    case Keep => Place(back.x1 + 1, 0)
    case Back(n) => Place(back.x1, back.x2 + n)
  }

  ghost predicate HasValue(rules: string, argv: seq<string>, p: Place) {
    && InArg(argv, p) && p.x2 > 0 && argv[p.x1][p.x2] != ':' && Code(argv[p.x1][p.x2]) != EOF
    && RuleOf(rules, argv[p.x1][p.x2]).MayHaveValue?
  }

  /** A value in the same argument */
  lemma FromValueHere(rules: string, caller: Caller, argv: seq<string>, prefix: char, p: Place)
    requires Sound(caller) && HasValue(rules, argv, p) && p.x2 + 1 < |argv[p.x1]|
    ensures
      var v := argv[p.x1][p.x2 + 1..];
      var item := Item(prefix, Code(argv[p.x1][p.x2]), Some(v), 0);
      From(rules, caller, argv, prefix, p)
      == Cons(item, From(rules, caller, argv, prefix, Resume(caller(item, v), Place(p.x1, p.x2 + 1))))
  {
  }

  /** A value in the next argument, and no value */
  lemma FromValueNext(rules: string, caller: Caller, argv: seq<string>, prefix: char, p: Place)
    requires Sound(caller) && HasValue(rules, argv, p) && p.x2 + 1 == |argv[p.x1]|
    ensures
      var c, next := Code(argv[p.x1][p.x2]), Place(p.x1 + 1, 0);
      From(rules, caller, argv, prefix, p)
      == if next.x1 == |argv| || argv[next.x1] == "--"
         then Cons(Item(prefix, c, None, 0), From(rules, caller, argv, prefix, next))
         else
           var item := Item(prefix, c, Some(argv[next.x1]), 0);
           Cons(item, From(rules, caller, argv, prefix, Resume(caller(item, argv[next.x1]), next)))
  {
    if p.x1 + 1 < |argv| { SliceAt(argv, p.x1 + 1); }
  }

  class Scanner {
    const argv: seq<string>
    const rules: string
    var at: Place             // GOx1, GOx2
    var prefix: char          // GOp
    var value: Option<string> // GOv
    var back: Place           // GObk

    /** A non-zero GOx2 indexes a character; no rule is for the character that
        reads as EOF. */
    ghost predicate Valid()
      reads this
    {
      && at.x1 <= |argv| && (at.x2 > 0 ==> InArg(argv, at))
      && forall c | Code(c) == EOF :: RuleOf(rules, c).Unknown?
    }

    constructor (argv: seq<string>, rules: string)
      requires forall c | Code(c) == EOF :: RuleOf(rules, c).Unknown?
      ensures Valid() && this.argv == argv && this.rules == rules && at == Place(0, 0)
    {
      this.argv, this.rules := argv, rules;
      at, back, prefix, value := Place(0, 0), Place(0, 0), '-', None;
    }

    /** What is left to be read means this. */
    ghost function Left(caller: Caller): Meaning
      requires Valid() && Sound(caller)
      reads this
    {
      From(rules, caller, argv, prefix, at)
    }

    /** The value found, if any, starts at GObk, which is past where the call
        started; the scanner stands after the value. */
    ghost predicate Saved(start: Place)
      reads this
    {
      value.Some? ==>
        && back.x1 < |argv| && back.x2 <= |argv[back.x1]| && value.value == argv[back.x1][back.x2..]
        && start.Before(back) && at == Place(back.x1 + 1, 0)
    }

    /** The place the loop goes on from, under a caller's decision */
    ghost function Then(caller: Caller, item: Item): Place
      reads this
    {
      if item.value.Some? then Resume(caller(item, item.value.value), back) else at
    }

    /** GetOpt() for an option that may have a value: assume the caller takes
        it, and remember where it starts. */
    method TakeValue(ghost caller: Caller)
      requires Valid() && Sound(caller) && HasValue(rules, argv, at)
      modifies this`at, this`back, this`value
      ensures Valid() && old(at).Before(at) && Saved(old(at))
      ensures
        var item := Item(prefix, Code(argv[old(at).x1][old(at).x2]), value, 0);
        && var p := Then(caller, item);
           p.x1 <= |argv| && (p.x2 > 0 ==> InArg(argv, p)) && old(Left(caller)) == Cons(item, From(rules, caller, argv, prefix, p))
    {
      hide RuleOf, Letters, Args, Code, From;
      if at.x2 + 1 < |argv[at.x1]| {
        FromValueHere(rules, caller, argv, prefix, at);
        back := Place(at.x1, at.x2 + 1);
        value := Some(argv[at.x1][back.x2..]);
        at := Place(at.x1 + 1, 0);
        return;
      }
      FromValueNext(rules, caller, argv, prefix, at);
      at := Place(at.x1 + 1, 0);
      value := None;
      if at.x1 < |argv| {
        back := at;
        if argv[at.x1] != "--" {
          value := Some(argv[at.x1]);
          at := Place(at.x1 + 1, 0);
        }
      }
    }

    /** GetOpt(): always forward, and exactly what the grammar says comes next */
    method GetOpt(ghost caller: Caller) returns (c: int, err: nat)
      requires Valid() && Sound(caller)
      modifies this
      ensures Valid()
      ensures c == EOF ==> old(Left(caller)) == Meaning([], argv[at.x1..])
      ensures c != EOF ==> old(at).Before(at) && (err == 0 ==> Saved(old(at)))
      ensures c != EOF ==>
        var item := Item(prefix, c, if err == 0 then value else None, err);
        && var p := Then(caller, item);
           p.x1 <= |argv| && (p.x2 > 0 ==> InArg(argv, p)) && old(Left(caller)) == Cons(item, From(rules, caller, argv, prefix, p))
    {
      hide RuleOf, Letters, Args, Code, From;
      err := 0;
      if at.x2 == 0 {
        if at.x1 >= |argv| || !IsOption(argv[at.x1]) {
          FromEnd(rules, caller, argv, prefix, at.x1);
          return EOF, 0;
        }
        if EndsOptions(argv[at.x1]) {
          FromEnd(rules, caller, argv, prefix, at.x1);
          at := Place(at.x1 + 1, 0);
          return EOF, 0;
        }
        FromOption(rules, caller, argv, prefix, at.x1);
        prefix := argv[at.x1][0];
        at := Place(at.x1, 1);
      }
      ghost var here := at;
      var ch := argv[at.x1][at.x2];
      var rule := RuleOf(rules, ch);
      c := Code(ch);
      if ch == ':' || rule.Unknown? {
        err := if ch == ':' then 1 else 2;
        at := Next(argv, at);
        if c == EOF {
          FromStop(rules, caller, argv, prefix, here);
        } else {
          FromLetter(rules, caller, argv, prefix, here, err);
        }
        return c, err;
      }
      if rule.MayHaveValue? {
        TakeValue(caller);
      } else {
        at := Next(argv, at);
        value := None;
        FromLetter(rules, caller, argv, prefix, here, 0);
      }
    }

    /** One turn of the option loop: GetOpt(), then the caller's decision */
    method Turn(caller: Caller) returns (item: Option<Item>)
      requires Valid() && Sound(caller)
      modifies this
      ensures Valid()
      ensures item.None? ==> old(Left(caller)) == Meaning([], argv[at.x1..])
      ensures item.Some? ==> old(at).Before(at) && old(Left(caller)) == Cons(item.value, Left(caller))
    {
      hide RuleOf, Letters, Args, Code, From;
      var c, err := GetOpt(caller);
      if c == EOF {
        return None;
      }
      item := Some(Item(prefix, c, if err == 0 then value else None, err));
      if err == 0 && value.Some? {
        at := Resume(caller(item.value, value.value), back);
      }
    }

    /**
     * The option loop, under any caller.  It ends for every argument array,
     * and hands its caller exactly the options the grammar gives, leaving
     * GOx1 at the first operand.
     */
    method Run(caller: Caller) returns (items: seq<Item>)
      requires Valid() && at == Place(0, 0) && Sound(caller)
      modifies this
      ensures Valid() && Args(true, rules, caller, argv) == Meaning(items, argv[at.x1..])
    {
      hide RuleOf, Letters, Args, Code, From;
      items := [];
      FromStart(rules, caller, argv, prefix);
      while true
        invariant Valid() && Args(true, rules, caller, argv) == Meaning(items + Left(caller).items, Left(caller).operands)
        decreases |argv| - at.x1, if at.x1 < |argv| then |argv[at.x1]| - at.x2 else 0
      {
        var item := Turn(caller);
        if item.None? {
          return;
        }
        items := items + [item.value];
      }
    }
  }

  // ----- The callers' ways -----

  function LeadingDigits(v: string): (n: nat)
    ensures n <= |v| && (n < |v| ==> !('0' <= v[n] <= '9')) && forall i | 0 <= i < n :: '0' <= v[i] <= '9'
  {
    if v != "" && '0' <= v[0] <= '9' then 1 + LeadingDigits(v[1..]) else 0
  }

  const FID_MARK := 'm'

  function Skip(v: string, n: nat, c: char): (k: nat)
    requires n <= |v|
    ensures n <= k <= |v|
    decreases |v| - n
  {
    if n < |v| && v[n] == c then Skip(v, n + 1, c) else n
  }

  /** Where -r looks for its marker: after spaces and a count */
  function AfterCount(v: string, n: nat): (k: nat)
    requires n <= |v|
    ensures n <= k <= |v|
  {
    var k := Skip(v, n, ' ');
    if k < |v| && v[k] == 'c' then k + 1 + LeadingDigits(v[k + 1..]) else k
  }

  /** Keep the value; reread one that looks like an option; also reread one
      that does not begin with a digit, the empty one included; take leading
      digits and reread what follows them; the same, unless a marker follows. */
  datatype Way = Always | UnlessOption | NumberOnly | DigitsOnly | DigitsOrMarker

  function Decide(w: Way, v: string): Decision {
    var n := LeadingDigits(v);
    if w != Always && v != "" && (v[0] == '-' || v[0] == '+') then Back(0)
    else
      match w
      case Always => Keep
      case UnlessOption => Keep
      case NumberOnly => if n == 0 then Back(0) else Keep
      case DigitsOnly => if n < |v| then Back(n) else Keep
      case DigitsOrMarker =>
        if n == |v| then Keep
        else
          var k := AfterCount(v, n);
          if k < |v| && v[k] == FID_MARK then Keep else Back(n)
  }

  /** What a build has, on the system where it runs: the options -A, -k, -K and
      -z, -m with a path, +m, TCP and UDP states for -s, and SELinux for -Z */
  datatype Feature = AfsPath | KernelPath | Tasks | Zones | MemoryPath | MountSupplement | States | Selinux

  /** The way of each option of the program.  An option that a build lacks keeps
      its value. */
  function WayOf(build: set<Feature>, i: Item): Way {
    var c := i.code;
    if i.prefix == '+' && c == Code('c') then NumberOnly
    else if c in {Code('f'), Code('F'), Code('g'), Code('i'), Code('T'), Code('x')} then UnlessOption
    else if || (c == Code('A') && AfsPath in build) || (c == Code('k') && KernelPath in build)
            || (c == Code('K') && Tasks in build) || (c == Code('z') && Zones in build)
            || (c == Code('m') && (if i.prefix == '+' then MountSupplement else MemoryPath) in build)
            || (c == Code('s') && States in build) || (c == Code('Z') && Selinux in build)
    then UnlessOption
    else if c in {Code('L'), Code('o'), Code('S')} then DigitsOnly
    else if c == Code('r') then DigitsOrMarker
    else Always
  }

  /** Every assignment of these ways to options is a sound caller. */
  lemma WaysAreSound(way: Item -> Way)
    ensures Sound((i, v) => Decide(way(i), v))
  {
    var caller: Caller := (i, v) => Decide(way(i), v);
    forall i, v ensures caller(i, v).Back? ==> caller(i, v).n < |v| || caller(i, v).n == 0 {
      assert caller(i, v) == Decide(way(i), v);
    }
  }

  /** The program's own option loop, for every build and every argument array: it ends, with
      the options and operands of the grammar. */
  method Program(build: set<Feature>, argv: seq<string>, rules: string) returns (items: seq<Item>, operands: seq<string>)
    requires forall c | Code(c) == EOF :: RuleOf(rules, c).Unknown?
    ensures
      var caller: Caller := (i, v) => Decide(WayOf(build, i), v);
      Sound(caller) && Args(true, rules, caller, argv) == Meaning(items, operands)
  {
    WaysAreSound(i => WayOf(build, i));
    var caller: Caller := (i, v) => Decide(WayOf(build, i), v);
    assert Sound(caller) by { SameCaller(build, caller); }
    var scanner := new Scanner(argv, rules);
    items := scanner.Run(caller);
    operands := argv[scanner.at.x1..];
  }

  lemma SameCaller(build: set<Feature>, caller: Caller)
    requires forall i, v :: caller(i, v) == Decide(WayOf(build, i), v)
    ensures Sound(caller)
  {
  }

  // ----- The character that reads as EOF -----

  /** The items before the first whose character reads as EOF */
  function UptoEof(items: seq<Item>): (r: seq<Item>)
    ensures r <= items && (r == items <==> forall i | 0 <= i < |items| :: items[i].code != EOF)
  {
    if items == [] || items[0].code == EOF then [] else [items[0]] + UptoEof(items[1..])
  }

  /** No character of an argument reads as EOF. */
  predicate CleanText(s: string) {
    forall i | 0 <= i < |s| :: Code(s[i]) != EOF
  }

  predicate Clean(args: seq<string>) {
    forall i | 0 <= i < |args| :: CleanText(args[i])
  }

  lemma CleanTail(args: seq<string>)
    requires args != [] && Clean(args)
    ensures CleanText(args[0]) && Clean(args[1..])
  {
  }

  /** What the program makes of what was meant */
  ghost predicate Cuts(run: Meaning, all: Meaning) {
    run.items == UptoEof(all.items) && (run.items == all.items ==> run == all)
  }

  lemma CutsCons(i: Item, run: Meaning, all: Meaning)
    requires Cuts(run, all) && i.code != EOF
    ensures Cuts(Cons(i, run), Cons(i, all))
  {
    assert ([i] + all.items)[1..] == all.items && ([i] + run.items)[1..] == run.items;
  }

  lemma CutsAtEof(i: Item, all: Meaning, operands: seq<string>)
    requires i.code == EOF
    ensures Cuts(Meaning([], operands), Cons(i, all))
  {
  }

  /**
   * Against the same grammar without the stop, the program's options are
   * exactly those before the first option character that reads as EOF.  So it
   * reads what was meant if and only if no option character reads as EOF, and
   * certainly if no character of the arguments does.
   */
  lemma {:induction false} EofCutsArgs(rules: string, caller: Caller, args: seq<string>)
    requires Sound(caller)
    ensures Cuts(Args(true, rules, caller, args), Args(false, rules, caller, args))
    ensures
      var all := Args(false, rules, caller, args);
      Args(true, rules, caller, args) == all <==> forall i | 0 <= i < |all.items| :: all.items[i].code != EOF
    ensures Clean(args) ==> Args(true, rules, caller, args) == Args(false, rules, caller, args)
    decreases Weight(args), 0
  {
    if args != [] && Clean(args) { CleanTail(args); }
    if args != [] && IsOption(args[0]) && !EndsOptions(args[0]) {
      EofCutsLetters(rules, caller, args[0][0], args[0], 1, args[1..]);
    }
  }

  lemma {:induction false} EofCutsLetters(rules: string, caller: Caller, prefix: char, arg: string, at: nat, rest: seq<string>)
    requires Sound(caller) && at < |arg|
    ensures Cuts(Letters(true, rules, caller, prefix, arg, at, rest), Letters(false, rules, caller, prefix, arg, at, rest))
    ensures CleanText(arg) && Clean(rest) ==>
              Letters(true, rules, caller, prefix, arg, at, rest) == Letters(false, rules, caller, prefix, arg, at, rest)
    decreases Weight(rest) + |arg| - at, 2
  {
    hide Cuts, UptoEof, RuleOf;
    var c := arg[at];
    var run, all := Letters(true, rules, caller, prefix, arg, at, rest), Letters(false, rules, caller, prefix, arg, at, rest);
    if Code(c) == EOF {
      CutsAtEof(all.items[0], Meaning(all.items[1..], all.operands), run.operands);
      assert all.items == [all.items[0]] + all.items[1..];
      return;
    }
    var run', all' := EofCutsAfter(rules, caller, prefix, arg, at, rest);
    CutsCons(all.items[0], run', all');
  }

  /** What follows an option character in both readings */
  lemma {:induction false} EofCutsAfter(rules: string, caller: Caller, prefix: char, arg: string, at: nat, rest: seq<string>)
    returns (run: Meaning, all: Meaning)
    requires Sound(caller) && at < |arg| && Code(arg[at]) != EOF
    ensures Cuts(run, all) && (CleanText(arg) && Clean(rest) ==> run == all)
    ensures
      var l := Letters(false, rules, caller, prefix, arg, at, rest);
      && l.items != [] && l == Cons(l.items[0], all) && l.items[0].code == Code(arg[at])
      && Letters(true, rules, caller, prefix, arg, at, rest) == Cons(l.items[0], run)
    decreases Weight(rest) + |arg| - at, 1
  {
    hide Cuts, UptoEof, RuleOf, Clean, CleanText;
    var c := arg[at];
    if c == ':' || !RuleOf(rules, c).MayHaveValue? {
      if at + 1 == |arg| { EofCutsArgs(rules, caller, rest); } else { EofCutsLetters(rules, caller, prefix, arg, at + 1, rest); }
      return More(true, rules, caller, prefix, arg, at + 1, rest), More(false, rules, caller, prefix, arg, at + 1, rest);
    }
    if at + 1 < |arg| {
      run, all := EofCutsHere(rules, caller, prefix, arg, at, rest);
    } else {
      run, all := EofCutsNext(rules, caller, prefix, arg, at, rest);
    }
  }

  /** What follows an option with a value in the same argument */
  lemma {:induction false} EofCutsHere(rules: string, caller: Caller, prefix: char, arg: string, at: nat, rest: seq<string>)
    returns (run: Meaning, all: Meaning)
    requires Sound(caller) && at < |arg| && Code(arg[at]) != EOF && at + 1 < |arg|
    requires arg[at] != ':' && RuleOf(rules, arg[at]).MayHaveValue?
    ensures Cuts(run, all) && (CleanText(arg) && Clean(rest) ==> run == all)
    ensures
      var l := Letters(false, rules, caller, prefix, arg, at, rest);
      && l.items != [] && l == Cons(l.items[0], all) && l.items[0].code == Code(arg[at])
      && Letters(true, rules, caller, prefix, arg, at, rest) == Cons(l.items[0], run)
    decreases Weight(rest) + |arg| - at, 0
  {
    hide Cuts, UptoEof, RuleOf, Clean, CleanText, Code;
    var c := arg[at];
    var v := arg[at + 1..];
    match caller(Item(prefix, Code(c), Some(v), 0), v) {
      case Keep =>
        EofCutsArgs(rules, caller, rest);
        return Args(true, rules, caller, rest), Args(false, rules, caller, rest);
      case Back(n) =>
        EofCutsLetters(rules, caller, prefix, arg, at + 1 + n, rest);
        return Letters(true, rules, caller, prefix, arg, at + 1 + n, rest), Letters(false, rules, caller, prefix, arg, at + 1 + n, rest);
    }
  }

  /** What follows an option with a value in the next argument, or none */
  lemma {:induction false} EofCutsNext(rules: string, caller: Caller, prefix: char, arg: string, at: nat, rest: seq<string>)
    returns (run: Meaning, all: Meaning)
    requires Sound(caller) && at < |arg| && Code(arg[at]) != EOF && at + 1 == |arg|
    requires arg[at] != ':' && RuleOf(rules, arg[at]).MayHaveValue?
    ensures Cuts(run, all) && (CleanText(arg) && Clean(rest) ==> run == all)
    ensures
      var l := Letters(false, rules, caller, prefix, arg, at, rest);
      && l.items != [] && l == Cons(l.items[0], all) && l.items[0].code == Code(arg[at])
      && Letters(true, rules, caller, prefix, arg, at, rest) == Cons(l.items[0], run)
    decreases Weight(rest) + |arg| - at, 0
  {
    hide Cuts, UptoEof, RuleOf, Clean, CleanText, Code;
    var c := arg[at];
    if rest != [] && Clean(rest) { CleanTail(rest); }
    if rest == [] || rest[0] == "--" {
      EofCutsArgs(rules, caller, rest);
      return Args(true, rules, caller, rest), Args(false, rules, caller, rest);
    }
    match caller(Item(prefix, Code(c), Some(rest[0]), 0), rest[0]) {
      case Keep =>
        EofCutsArgs(rules, caller, rest[1..]);
        return Args(true, rules, caller, rest[1..]), Args(false, rules, caller, rest[1..]);
      case Back(n) =>
        if n == 0 {
          EofCutsArgs(rules, caller, rest);
          return Args(true, rules, caller, rest), Args(false, rules, caller, rest);
        }
        EofCutsLetters(rules, caller, prefix, rest[0], n, rest[1..]);
        return Letters(true, rules, caller, prefix, rest[0], n, rest[1..]), Letters(false, rules, caller, prefix, rest[0], n, rest[1..]);
    }
  }

  /** One argument of which the program reads no option; it takes the whole
      argument for an operand instead. */
  lemma EofLosesOptions(rules: string, caller: Caller)
    requires Sound(caller) && RuleOf(rules, 'a').Alone? && RuleOf(rules, 255 as char).Unknown?
    ensures
      var arg := ['-', 255 as char, 'a'];
      && Args(true, rules, caller, [arg]) == Meaning([], [arg])
      && Args(false, rules, caller, [arg]) == Meaning([Item('-', EOF, None, 2), Item('-', Code('a'), None, 0)], [])
  {
    hide RuleOf;
    var arg := ['-', 255 as char, 'a'];
    assert Code(255 as char) == EOF && Code('a') == 97;
    assert [arg][1..] == [] && [arg] + [] == [arg];
    var last := Letters(false, rules, caller, '-', arg, 2, []);
    assert More(false, rules, caller, '-', arg, 3, []) == Meaning([], []);
    assert last == Cons(Item('-', 97, None, 0), Meaning([], []));
    assert [Item('-', 97, None, 0)] + [] == [Item('-', 97, None, 0)];
    assert Letters(false, rules, caller, '-', arg, 1, []) == Cons(Item('-', EOF, None, 2), last);
  }
}
