/** Command lines put together from what they are to say, and read back by the
    option loop. */
module CommandLine {
  import opened Common
  import opened OptionScanner

  // ----- The rules of an option table -----

  /** An option character, and whether it may have a value */
  datatype Listed = Listed(c: char, value: bool)

  function RulesText(table: seq<Listed>): string {
    if table == [] then ""
    else [table[0].c] + (if table[0].value then ":" else "") + RulesText(table[1..])
  }

  /** Each character is listed once, and the colon is not. */
  predicate Proper(table: seq<Listed>) {
    && (forall i | 0 <= i < |table| :: table[i].c != ':')
    && forall i, j | 0 <= i < j < |table| :: table[i].c != table[j].c
  }

  function Listing(table: seq<Listed>, c: char): Rule {
    if Listed(c, true) in table then MayHaveValue else if Listed(c, false) in table then Alone else Unknown
  }

  lemma RuleSkips(a: char, rest: string, c: char)
    requires a != c
    ensures RuleOf([a] + rest, c) == RuleOf(rest, c)
  {
    assert ([a] + rest)[1..] == rest;
  }

  /** What GetOpt() finds in the rules is what the table lists. */
  lemma {:induction false} RulesSay(table: seq<Listed>, c: char)
    requires Proper(table) && c != ':'
    ensures RuleOf(RulesText(table), c) == Listing(table, c)
  {
    hide Listing;
    if table == [] {
      ListingNext(table, c);
    } else {
      var h, t := table[0], table[1..];
      RulesSay(t, c);
      ListingNext(table, c);
      var more := (if h.value then ":" else "") + RulesText(t);
      assert RulesText(table) == [h.c] + more;
      if h.c != c {
        RuleSkips(h.c, more, c);
        if h.value { RuleSkips(':', RulesText(t), c); }
      } else {
        NoColonFirst(t);
      }
    }
  }

  lemma NoColonFirst(table: seq<Listed>)
    requires Proper(table)
    ensures var r := RulesText(table); r == "" || r[0] != ':'
  {
  }

  lemma ListingNext(table: seq<Listed>, c: char)
    requires Proper(table)
    ensures Listing(table, c) ==
            if table == [] then Unknown
            else if table[0].c != c then Listing(table[1..], c)
            else if table[0].value then MayHaveValue
            else Alone
  {
    if table != [] {
      assert table == [table[0]] + table[1..];
      assert forall i | 0 < i < |table| :: table[i].c != table[0].c;
    }
  }

  // ----- Command lines -----

  /** How an argument of options ends: with an option that has its value in the
      same argument, or in the next one; with one that may have a value, but
      does not take the next argument for it, or has none. */
  datatype Last = Bare | Joined(c: char, v: string) | Separate(c: char, v: string) | Declined(c: char) | Missing(c: char)

  /** Options in one argument, the first ones without a value */
  datatype Word = Word(prefix: char, flags: string, last: Last)

  function Head(w: Word): string {
    [w.prefix] + w.flags +
    match w.last
    case Bare => ""
    case Joined(c, v) => [c] + v
    case Separate(c, _) => [c]
    case Declined(c) => [c]
    case Missing(c) => [c]
  }

  function Spelled(ws: seq<Word>): seq<string> {
    if ws == [] then []
    else [Head(ws[0])] + (if ws[0].last.Separate? then [ws[0].last.v] else []) + Spelled(ws[1..])
  }

  /** How the operands are set off */
  datatype Mark = NoMark | Dashes | Pluses

  function Tail(mark: Mark, operands: seq<string>): seq<string> {
    match mark
    case NoMark => operands
    case Dashes => ["--"] + operands
    case Pluses => ["++"] + operands
  }

  /** The error mark of an option without a value */
  function ErrorOf(table: seq<Listed>, c: char): nat {
    if c == ':' then 1 else if Listing(table, c).Unknown? then 2 else 0
  }

  function FlagItems(table: seq<Listed>, prefix: char, flags: string): seq<Item> {
    if flags == "" then []
    else [Item(prefix, Code(flags[0]), None, ErrorOf(table, flags[0]))] + FlagItems(table, prefix, flags[1..])
  }

  /** The option that ends a word, before the arguments `rest` */
  function LastItem(prefix: char, last: Last, rest: seq<string>): seq<Item> {
    match last
    case Bare => []
    case Joined(c, v) => [Item(prefix, Code(c), Some(v), 0)]
    case Separate(c, v) => [Item(prefix, Code(c), Some(v), 0)]
    case Declined(c) => [Item(prefix, Code(c), if rest == [] then None else Some(rest[0]), 0)]
    case Missing(c) => [Item(prefix, Code(c), None, 0)]
  }

  function ItemsOf(table: seq<Listed>, ws: seq<Word>, tail: seq<string>): seq<Item> {
    if ws == [] then []
    else
      FlagItems(table, ws[0].prefix, ws[0].flags) + LastItem(ws[0].prefix, ws[0].last, Spelled(ws[1..]) + tail) +
      ItemsOf(table, ws[1..], tail)
  }

  /** An option character that the loop sees and that may have a value */
  predicate Valued(table: seq<Listed>, c: char) {
    Listed(c, true) in table && Code(c) != EOF
  }

  predicate FlagsOk(table: seq<Listed>, flags: string) {
    forall i | 0 <= i < |flags| :: Code(flags[i]) != EOF && Listed(flags[i], true) !in table
  }

  /** The loop's caller makes of the last option what the word says. */
  predicate LastOk(table: seq<Listed>, caller: Caller, prefix: char, last: Last, rest: seq<string>) {
    match last
    case Bare => true
    case Joined(c, v) => Valued(table, c) && v != "" && caller(Item(prefix, Code(c), Some(v), 0), v) == Keep
    case Separate(c, v) => Valued(table, c) && v != "--" && caller(Item(prefix, Code(c), Some(v), 0), v) == Keep
    case Declined(c) =>
      && Valued(table, c) && rest != [] && rest[0] != "--"
      && caller(Item(prefix, Code(c), Some(rest[0]), 0), rest[0]) == Back(0)
    case Missing(c) => Valued(table, c) && (rest == [] || rest[0] == "--")
  }

  predicate WordOk(table: seq<Listed>, caller: Caller, w: Word, rest: seq<string>) {
    && (w.prefix == '-' || w.prefix == '+') && |Head(w)| > 1 && !EndsOptions(Head(w))
    && FlagsOk(table, w.flags) && LastOk(table, caller, w.prefix, w.last, rest)
  }

  predicate WordsOk(table: seq<Listed>, caller: Caller, ws: seq<Word>, tail: seq<string>) {
    ws == [] || (WordOk(table, caller, ws[0], Spelled(ws[1..]) + tail) && WordsOk(table, caller, ws[1..], tail))
  }

  // ----- Reading them back -----

  function Prepend(items: seq<Item>, m: Meaning): Meaning {
    Meaning(items + m.items, m.operands)
  }

  lemma PrependCat(a: seq<Item>, b: seq<Item>, m: Meaning)
    ensures Prepend(a, Prepend(b, m)) == Prepend(a + b, m)
  {
    assert a + (b + m.items) == a + b + m.items;
  }

  lemma PrependCons(i: Item, b: seq<Item>, m: Meaning)
    ensures Cons(i, Prepend(b, m)) == Prepend([i] + b, m) && Cons(i, m) == Prepend([i], m)
  {
    assert [i] + (b + m.items) == [i] + b + m.items;
  }

  lemma PrependNothing(m: Meaning)
    ensures Prepend([], m) == m
  {
    assert [] + m.items == m.items;
  }

  /** One option without a value */
  lemma FlagReads(stop: bool, table: seq<Listed>, caller: Caller, prefix: char, arg: string, at: nat, rest: seq<string>)
    requires Sound(caller) && Proper(table) && at < |arg|
    requires Code(arg[at]) != EOF && Listed(arg[at], true) !in table
    ensures
      More(stop, RulesText(table), caller, prefix, arg, at, rest) ==
      Cons(Item(prefix, Code(arg[at]), None, ErrorOf(table, arg[at])),
           More(stop, RulesText(table), caller, prefix, arg, at + 1, rest))
  {
    hide Args, RuleOf, Code;
    if arg[at] != ':' { RulesSay(table, arg[at]); }
  }

  lemma {:induction false} FlagsRead(stop: bool, table: seq<Listed>, caller: Caller, prefix: char, arg: string, at: nat,
                                     flags: string, rest: seq<string>)
    requires Sound(caller) && Proper(table) && at + |flags| <= |arg| && arg[at..at + |flags|] == flags
    requires FlagsOk(table, flags)
    ensures
      More(stop, RulesText(table), caller, prefix, arg, at, rest) ==
      Prepend(FlagItems(table, prefix, flags), More(stop, RulesText(table), caller, prefix, arg, at + |flags|, rest))
    decreases |flags|
  {
    hide Args, RuleOf, Code, ErrorOf, Prepend, Cons, RulesText, Letters, More;
    var end := More(stop, RulesText(table), caller, prefix, arg, at + |flags|, rest);
    if flags == "" {
      PrependNothing(end);
    } else {
      assert arg[at] == flags[0] && arg[at + 1..at + |flags|] == flags[1..];
      FlagReads(stop, table, caller, prefix, arg, at, rest);
      FlagsRead(stop, table, caller, prefix, arg, at + 1, flags[1..], rest);
      PrependCons(Item(prefix, Code(flags[0]), None, ErrorOf(table, flags[0])), FlagItems(table, prefix, flags[1..]), end);
    }
  }

  /** The arguments of a word after its first */
  function Values(last: Last): seq<string> {
    if last.Separate? then [last.v] else []
  }

  /** The option that ends a word */
  lemma LastReads(stop: bool, table: seq<Listed>, caller: Caller, prefix: char, last: Last, arg: string, at: nat, rest: seq<string>)
    requires Sound(caller) && Proper(table) && LastOk(table, caller, prefix, last, rest)
    requires at <= |arg| && if last.Bare? then at == |arg| else at < |arg| && arg[at] == last.c
    requires if last.Joined? then arg[at + 1..] == last.v else last.Bare? || at + 1 == |arg|
    ensures
      More(stop, RulesText(table), caller, prefix, arg, at, Values(last) + rest) ==
      Prepend(LastItem(prefix, last, rest), Args(stop, RulesText(table), caller, rest))
  {
    hide Args, RuleOf, Code, Prepend, Cons, RulesText;
    var m := Args(stop, RulesText(table), caller, rest);
    if last.Bare? {
      PrependNothing(m);
      assert Values(last) + rest == rest;
    } else {
      assert last.c != ':' by { assert Listed(last.c, true) in table; }
      RulesSay(table, last.c);
      PrependCons(LastItem(prefix, last, rest)[0], [], m);
      if last.Separate? {
        assert (Values(last) + rest)[1..] == rest;
      } else {
        assert Values(last) + rest == rest;
      }
    }
  }

  /** One word, and then the arguments after it */
  lemma WordReads(stop: bool, table: seq<Listed>, caller: Caller, w: Word, rest: seq<string>)
    requires Sound(caller) && Proper(table) && WordOk(table, caller, w, rest)
    ensures
      Args(stop, RulesText(table), caller, [Head(w)] + (Values(w.last) + rest)) ==
      Prepend(FlagItems(table, w.prefix, w.flags) + LastItem(w.prefix, w.last, rest),
              Args(stop, RulesText(table), caller, rest))
  {
    hide RuleOf, Code, Prepend, Cons, RulesText, FlagItems, LastItem, LastOk, FlagsOk;
    var arg, args := Head(w), [Head(w)] + (Values(w.last) + rest);
    var k := 1 + |w.flags|;
    assert args[1..] == Values(w.last) + rest && arg[0] == w.prefix && arg[1..k] == w.flags;
    EnterWord(stop, RulesText(table), caller, arg, Values(w.last) + rest);
    FlagsRead(stop, table, caller, w.prefix, arg, 1, w.flags, Values(w.last) + rest);
    assert w.last.Joined? ==> arg[k + 1..] == w.last.v;
    LastReads(stop, table, caller, w.prefix, w.last, arg, k, rest);
    PrependCat(FlagItems(table, w.prefix, w.flags), LastItem(w.prefix, w.last, rest), Args(stop, RulesText(table), caller, rest));
  }

  lemma EnterWord(stop: bool, rules: string, caller: Caller, arg: string, rest: seq<string>)
    requires Sound(caller) && IsOption(arg) && !EndsOptions(arg)
    ensures Args(stop, rules, caller, [arg] + rest) == More(stop, rules, caller, arg[0], arg, 1, rest)
  {
    hide Letters;
    assert ([arg] + rest)[1..] == rest;
  }

  lemma {:induction false} WordsRead(stop: bool, table: seq<Listed>, caller: Caller, ws: seq<Word>, tail: seq<string>)
    requires Sound(caller) && Proper(table) && WordsOk(table, caller, ws, tail)
    ensures
      Args(stop, RulesText(table), caller, Spelled(ws) + tail) ==
      Prepend(ItemsOf(table, ws, tail), Args(stop, RulesText(table), caller, tail))
    decreases |ws|
  {
    hide Args, Prepend, RulesText, WordOk, FlagItems, LastItem, Head;
    var m := Args(stop, RulesText(table), caller, tail);
    if ws == [] {
      assert Spelled(ws) + tail == tail;
      PrependNothing(m);
    } else {
      var w, rest := ws[0], Spelled(ws[1..]) + tail;
      WordsRead(stop, table, caller, ws[1..], tail);
      assert Spelled(ws) + tail == [Head(w)] + (Values(w.last) + rest);
      WordReads(stop, table, caller, w, rest);
      PrependCat(FlagItems(table, w.prefix, w.flags) + LastItem(w.prefix, w.last, rest), ItemsOf(table, ws[1..], tail), m);
    }
  }

  lemma OperandsRead(stop: bool, rules: string, caller: Caller, mark: Mark, operands: seq<string>)
    requires Sound(caller) && (mark.NoMark? && operands != [] ==> !IsOption(operands[0]))
    ensures Args(stop, rules, caller, Tail(mark, operands)) == Meaning([], operands)
  {
    if !mark.NoMark? { assert Tail(mark, operands)[1..] == operands; }
  }

  /**
   * For every option table and every caller: options and operands, put into
   * arguments in any of the ways there are, are read back as those options, in
   * order, each with its prefix, its value and its error mark, and those operands.
   */
  lemma LineReads(stop: bool, table: seq<Listed>, caller: Caller, ws: seq<Word>, mark: Mark, operands: seq<string>)
    requires Sound(caller) && Proper(table) && WordsOk(table, caller, ws, Tail(mark, operands))
    requires mark.NoMark? && operands != [] ==> !IsOption(operands[0])
    ensures Args(stop, RulesText(table), caller, Spelled(ws) + Tail(mark, operands)) ==
            Meaning(ItemsOf(table, ws, Tail(mark, operands)), operands)
  {
    hide Args, WordsOk, RulesText, Spelled, ItemsOf, Tail;
    WordsRead(stop, table, caller, ws, Tail(mark, operands));
    OperandsRead(stop, RulesText(table), caller, mark, operands);
    assert ItemsOf(table, ws, Tail(mark, operands)) + [] == ItemsOf(table, ws, Tail(mark, operands));
  }

  // ----- The program's own options -----

  /** Options whose value may be left out, in every build and in some */
  const OPTIONAL := "fFgiTx"
  const CONDITIONAL: map<char, Feature> :=
    map['A' := AfsPath, 'k' := KernelPath, 'K' := Tasks, 'z' := Zones, 's' := States, 'Z' := Selinux]

  /** Options whose value is a number, which options may follow directly */
  const NUMBERED := "LoSr"

  predicate OptionalValue(build: set<Feature>, prefix: char, c: char) {
    || c in OPTIONAL || (c in CONDITIONAL && CONDITIONAL[c] in build)
    || (c == 'm' && (if prefix == '+' then MountSupplement else MemoryPath) in build)
  }

  predicate LooksLikeOption(v: string) {
    v != "" && (v[0] == '-' || v[0] == '+')
  }

  predicate IsDigit(c: char) {
    '0' <= c <= '9'
  }

  predicate AllDigits(v: string) {
    forall i | 0 <= i < |v| :: IsDigit(v[i])
  }

  predicate IsByte(c: char) {
    c as int < 256
  }

  /** A value that the option takes */
  predicate Takes(build: set<Feature>, prefix: char, c: char, v: string) {
    if prefix == '+' && c == 'c' then v != "" && IsDigit(v[0])
    else if OptionalValue(build, prefix, c) then !LooksLikeOption(v)
    else c in NUMBERED ==> AllDigits(v)
  }

  /** An argument that the option does not take for its value */
  predicate Declines(build: set<Feature>, prefix: char, c: char, v: string) {
    LooksLikeOption(v) && ((prefix == '+' && c == 'c') || OptionalValue(build, prefix, c) || c in NUMBERED)
  }

  lemma SameCode(c: char, d: char)
    requires IsByte(c) && d as int < 128
    ensures Code(c) == Code(d) <==> c == d
  {
  }

  lemma Membership(build: set<Feature>, prefix: char, c: char)
    ensures c in NUMBERED <==> c == 'L' || c == 'o' || c == 'S' || c == 'r'
    ensures OptionalValue(build, prefix, c) <==>
            || c == 'f' || c == 'F' || c == 'g' || c == 'i' || c == 'T' || c == 'x'
            || (c == 'A' && AfsPath in build) || (c == 'k' && KernelPath in build) || (c == 'K' && Tasks in build)
            || (c == 'z' && Zones in build) || (c == 's' && States in build) || (c == 'Z' && Selinux in build)
            || (c == 'm' && (if prefix == '+' then MountSupplement else MemoryPath) in build)
  {
  }

  /** Which way each option goes */
  lemma WayIs(build: set<Feature>, prefix: char, c: char, v: Option<string>)
    requires IsByte(c)
    ensures WayOf(build, Item(prefix, Code(c), v, 0)) ==
            if prefix == '+' && c == 'c' then NumberOnly
            else if OptionalValue(build, prefix, c) then UnlessOption
            else if c in NUMBERED then if c == 'r' then DigitsOrMarker else DigitsOnly
            else Always
  {
    hide Code, OptionalValue, NUMBERED;
    Membership(build, prefix, c);
    SameCode(c, 'c');
    SameCode(c, 'f');
    SameCode(c, 'F');
    SameCode(c, 'g');
    SameCode(c, 'i');
    SameCode(c, 'T');
    SameCode(c, 'x');
    SameCode(c, 'A');
    SameCode(c, 'k');
    SameCode(c, 'K');
    SameCode(c, 'z');
    SameCode(c, 's');
    SameCode(c, 'Z');
    SameCode(c, 'm');
    SameCode(c, 'L');
    SameCode(c, 'o');
    SameCode(c, 'S');
    SameCode(c, 'r');
  }

  lemma DigitsAre(v: string, k: nat)
    requires k <= |v| && (forall i | 0 <= i < k :: IsDigit(v[i])) && (k < |v| ==> !IsDigit(v[k]))
    ensures LeadingDigits(v) == k
  {
  }

  /** The program keeps a value that the option takes, and reads again one that
      it does not take. */
  lemma ProgramDecides(build: set<Feature>, prefix: char, c: char, v: string)
    requires IsByte(c)
    ensures var d := Decide(WayOf(build, Item(prefix, Code(c), Some(v), 0)), v);
            && (Takes(build, prefix, c, v) ==> d == Keep)
            && (Declines(build, prefix, c, v) ==> d == Back(0))
  {
    hide WayOf, Code, AfterCount, OptionalValue;
    WayIs(build, prefix, c, Some(v));
    if AllDigits(v) { DigitsAre(v, |v|); }
  }

  predicate ProgramLastOk(build: set<Feature>, table: seq<Listed>, prefix: char, last: Last, rest: seq<string>) {
    match last
    case Bare => true
    case Joined(c, v) => Valued(table, c) && IsByte(c) && v != "" && Takes(build, prefix, c, v)
    case Separate(c, v) => Valued(table, c) && IsByte(c) && v != "--" && Takes(build, prefix, c, v)
    case Declined(c) => Valued(table, c) && IsByte(c) && rest != [] && rest[0] != "--" && Declines(build, prefix, c, rest[0])
    case Missing(c) => Valued(table, c) && (rest == [] || rest[0] == "--")
  }

  predicate ProgramWordsOk(build: set<Feature>, table: seq<Listed>, ws: seq<Word>, tail: seq<string>) {
    ws == [] ||
    var w := ws[0];
    && (w.prefix == '-' || w.prefix == '+') && |Head(w)| > 1 && !EndsOptions(Head(w)) && FlagsOk(table, w.flags)
    && ProgramLastOk(build, table, w.prefix, w.last, Spelled(ws[1..]) + tail)
    && ProgramWordsOk(build, table, ws[1..], tail)
  }

  ghost predicate IsProgram(build: set<Feature>, caller: Caller) {
    forall i, v :: caller(i, v) == Decide(WayOf(build, i), v)
  }

  lemma ProgramLast(build: set<Feature>, table: seq<Listed>, caller: Caller, prefix: char, last: Last, rest: seq<string>)
    requires IsProgram(build, caller) && ProgramLastOk(build, table, prefix, last, rest)
    ensures LastOk(table, caller, prefix, last, rest)
  {
    hide Decide, WayOf, Takes, Declines, Valued;
    if last.Joined? || last.Separate? { ProgramDecides(build, prefix, last.c, last.v); }
    if last.Declined? { ProgramDecides(build, prefix, last.c, rest[0]); }
  }

  lemma {:induction false} ProgramWords(build: set<Feature>, table: seq<Listed>, caller: Caller, ws: seq<Word>, tail: seq<string>)
    requires IsProgram(build, caller) && ProgramWordsOk(build, table, ws, tail)
    ensures WordsOk(table, caller, ws, tail)
    decreases |ws|
  {
    hide IsProgram, LastOk, ProgramLastOk, Spelled, Head, FlagsOk;
    if ws != [] {
      ProgramLast(build, table, caller, ws[0].prefix, ws[0].last, Spelled(ws[1..]) + tail);
      ProgramWords(build, table, caller, ws[1..], tail);
    }
  }

  /**
   * The program's own loop, in every build: every option is read with the value
   * it takes, from the same argument or the next, and an option whose value may
   * be left out, before an argument that looks like options, leaves that
   * argument to be read as options.
   */
  lemma ProgramReads(build: set<Feature>, table: seq<Listed>, caller: Caller, ws: seq<Word>, mark: Mark, operands: seq<string>)
    requires IsProgram(build, caller) && Proper(table) && ProgramWordsOk(build, table, ws, Tail(mark, operands))
    requires mark.NoMark? && operands != [] ==> !IsOption(operands[0])
    ensures Sound(caller)
    ensures Args(true, RulesText(table), caller, Spelled(ws) + Tail(mark, operands)) ==
            Meaning(ItemsOf(table, ws, Tail(mark, operands)), operands)
  {
    hide Args, WordsOk, ProgramWordsOk, RulesText, Spelled, ItemsOf, Tail;
    SameCaller(build, caller);
    ProgramWords(build, table, caller, ws, Tail(mark, operands));
    LineReads(true, table, caller, ws, mark, operands);
  }

  // ----- Numbers that options follow -----

  lemma DigitsThen(d: string, t: string)
    requires AllDigits(d) && (t != "" ==> !IsDigit(t[0]))
    ensures LeadingDigits(d + t) == |d|
  {
    assert forall i | 0 <= i < |d| :: (d + t)[i] == d[i];
    DigitsAre(d + t, |d|);
  }

  /** After -L, -o and -S, what follows the digits is read as options. */
  lemma NumberThenOptions(build: set<Feature>, prefix: char, c: char, d: string, t: string)
    requires c in "LoS" && AllDigits(d) && t != "" && !IsDigit(t[0]) && (d == "" ==> !LooksLikeOption(t))
    ensures Decide(WayOf(build, Item(prefix, Code(c), Some(d + t), 0)), d + t) == Back(|d|)
  {
    hide WayOf, Code, AfterCount;
    WayIs(build, prefix, c, Some(d + t));
    DigitsThen(d, t);
    if d != "" { assert IsDigit((d + t)[0]); }
  }

  lemma RereadHere(stop: bool, rules: string, caller: Caller, prefix: char, arg: string, at: nat, n: nat, rest: seq<string>)
    requires Sound(caller) && at + 1 + n < |arg| && arg[at] != ':' && Code(arg[at]) != EOF
    requires RuleOf(rules, arg[at]).MayHaveValue?
    requires caller(Item(prefix, Code(arg[at]), Some(arg[at + 1..]), 0), arg[at + 1..]) == Back(n)
    ensures
      More(stop, rules, caller, prefix, arg, at, rest) ==
      Cons(Item(prefix, Code(arg[at]), Some(arg[at + 1..]), 0), More(stop, rules, caller, prefix, arg, at + 1 + n, rest))
  {
    hide Args, RuleOf, Code, Cons;
  }

  lemma RereadNext(stop: bool, rules: string, caller: Caller, prefix: char, arg: string, v: string, n: nat, rest: seq<string>)
    requires Sound(caller) && arg != "" && 0 < n < |v| && v != "--"
    requires var c := arg[|arg| - 1];
             && c != ':' && Code(c) != EOF && RuleOf(rules, c).MayHaveValue?
             && caller(Item(prefix, Code(c), Some(v), 0), v) == Back(n)
    ensures
      More(stop, rules, caller, prefix, arg, |arg| - 1, [v] + rest) ==
      Cons(Item(prefix, Code(arg[|arg| - 1]), Some(v), 0), More(stop, rules, caller, prefix, v, n, rest))
  {
    hide Args, RuleOf, Code, Cons;
    assert ([v] + rest)[1..] == rest;
  }

  lemma PartsHere(pre: string, c: char, d: string, t: string)
    ensures var arg, at := pre + ([c] + (d + t)), |pre| + 1 + |d|;
            arg[|pre|] == c && arg[|pre| + 1..] == d + t && |arg| == at + |t| && arg[at..at + |t|] == t
  {
  }

  /** An option in the middle of an argument, its digits and the options after them */
  lemma NumberHere(stop: bool, table: seq<Listed>, caller: Caller, prefix: char, pre: string, c: char, d: string,
                   t: string, rest: seq<string>)
    requires Sound(caller) && Proper(table) && Valued(table, c) && FlagsOk(table, t) && t != ""
    requires caller(Item(prefix, Code(c), Some(d + t), 0), d + t) == Back(|d|)
    ensures
      More(stop, RulesText(table), caller, prefix, pre + ([c] + (d + t)), |pre|, rest) ==
      Prepend([Item(prefix, Code(c), Some(d + t), 0)] + FlagItems(table, prefix, t), Args(stop, RulesText(table), caller, rest))
  {
    hide Args, RuleOf, Code, Prepend, Cons, RulesText, FlagItems, FlagsOk, Letters;
    var arg, at := pre + ([c] + (d + t)), |pre| + 1 + |d|;
    assert c != ':' by { assert Listed(c, true) in table; }
    RulesSay(table, c);
    PartsHere(pre, c, d, t);
    RereadHere(stop, RulesText(table), caller, prefix, arg, |pre|, |d|, rest);
    FlagsRead(stop, table, caller, prefix, arg, at, t, rest);
    PrependCons(Item(prefix, Code(c), Some(d + t), 0), FlagItems(table, prefix, t), Args(stop, RulesText(table), caller, rest));
  }

  /** The same with the digits, of which there is one, in the next argument */
  lemma NumberNext(stop: bool, table: seq<Listed>, caller: Caller, prefix: char, pre: string, c: char, d: string,
                   t: string, rest: seq<string>)
    requires Sound(caller) && Proper(table) && Valued(table, c) && FlagsOk(table, t) && t != "" && d != "" && d + t != "--"
    requires caller(Item(prefix, Code(c), Some(d + t), 0), d + t) == Back(|d|)
    ensures
      More(stop, RulesText(table), caller, prefix, pre + [c], |pre|, [d + t] + rest) ==
      Prepend([Item(prefix, Code(c), Some(d + t), 0)] + FlagItems(table, prefix, t), Args(stop, RulesText(table), caller, rest))
  {
    hide Args, RuleOf, Code, Prepend, Cons, RulesText, FlagItems, FlagsOk, Letters;
    assert c != ':' by { assert Listed(c, true) in table; }
    RulesSay(table, c);
    RereadNext(stop, RulesText(table), caller, prefix, pre + [c], d + t, |d|, rest);
    assert (d + t)[|d|..|d| + |t|] == t;
    FlagsRead(stop, table, caller, prefix, d + t, |d|, t, rest);
    PrependCons(Item(prefix, Code(c), Some(d + t), 0), FlagItems(table, prefix, t), Args(stop, RulesText(table), caller, rest));
  }

  lemma SpacesSkip(v: string, n: nat, k: nat)
    requires n <= k <= |v| && (forall i | n <= i < k :: v[i] == ' ') && (k < |v| ==> v[k] != ' ')
    ensures Skip(v, n, ' ') == k
    decreases k - n
  {
  }

  lemma AfterCountIs(v: string, n: nat, spaces: string, count: string, t: string)
    requires n <= |v| && v[n..] == spaces + (count + t) && (forall i | 0 <= i < |spaces| :: spaces[i] == ' ')
    requires count == "" || (count[0] == 'c' && AllDigits(count[1..]))
    requires t != "" ==> !IsDigit(t[0]) && (count == "" ==> t[0] != ' ' && t[0] != 'c')
    ensures AfterCount(v, n) == |v| - |t|
  {
    hide LeadingDigits, Skip;
    var k := n + |spaces|;
    assert v[k..] == v[n..][|spaces|..] == count + t;
    assert forall i | n <= i < k :: v[i] == v[n..][i - n];
    assert k < |v| ==> v[k] == v[k..][0];
    SpacesSkip(v, n, k);
    if count != "" {
      assert v[k] == v[k..][0] == 'c' && v[k + 1..] == v[k..][1..] == count[1..] + t;
      DigitsThen(count[1..], t);
    } else if t != "" {
      assert v[k] == v[k..][0] == t[0];
    }
  }

  /** After -r, what follows the digits is its value too, if it is spaces, a
      count, and the marker; otherwise it is read as options. */
  lemma RepeatValue(build: set<Feature>, prefix: char, d: string, spaces: string, count: string, t: string)
    requires AllDigits(d) && (forall i | 0 <= i < |spaces| :: spaces[i] == ' ')
    requires count == "" || (count[0] == 'c' && AllDigits(count[1..]))
    requires t != "" ==> !IsDigit(t[0]) && (count == "" ==> t[0] != ' ' && t[0] != 'c')
    requires d == "" ==> !LooksLikeOption(spaces + (count + t))
    ensures var v := d + (spaces + (count + t));
            Decide(WayOf(build, Item(prefix, Code('r'), Some(v), 0)), v) ==
            if spaces + (count + t) == "" || (t != "" && t[0] == 'm') then Keep else Back(|d|)
  {
    hide WayOf, Code, AfterCount, LeadingDigits, AllDigits, LooksLikeOption, Decide;
    var more := spaces + (count + t);
    var v := d + more;
    RepeatWay(build, prefix, Some(v));
    NoDigitFirst(spaces, count, t);
    DigitsThen(d, more);
    LeadsLike(d, more);
    if more != "" {
      assert v[|d|..] == more;
      AfterCountIs(v, |d|, spaces, count, t);
      LastPart(d + spaces + count, t, v);
    }
    RepeatDecides(v);
  }

  lemma RepeatWay(build: set<Feature>, prefix: char, v: Option<string>)
    ensures WayOf(build, Item(prefix, Code('r'), v, 0)) == DigitsOrMarker
  {
    hide WayOf, Code;
    WayIs(build, prefix, 'r', v);
  }

  lemma NoDigitFirst(spaces: string, count: string, t: string)
    requires (forall i | 0 <= i < |spaces| :: spaces[i] == ' ') && (count == "" || count[0] == 'c')
    requires t != "" ==> !IsDigit(t[0])
    ensures var more := spaces + (count + t); more != "" ==> !IsDigit(more[0])
  {
  }

  lemma RepeatDecides(v: string)
    requires !LooksLikeOption(v)
    ensures var n := LeadingDigits(v);
            Decide(DigitsOrMarker, v) ==
            if n == |v| || (var k := AfterCount(v, n); k < |v| && v[k] == 'm') then Keep else Back(n)
  {
    hide LeadingDigits, AfterCount;
  }

  lemma LastPart(a: string, t: string, v: string)
    requires v == a + t
    ensures t != "" ==> v[|v| - |t|] == t[0]
  {
  }

  lemma LeadsLike(d: string, t: string)
    requires AllDigits(d) && (d == "" ==> !LooksLikeOption(t))
    ensures !LooksLikeOption(d + t)
  {
    if d != "" { assert IsDigit(d[0]) && (d + t)[0] == d[0]; }
  }
}
