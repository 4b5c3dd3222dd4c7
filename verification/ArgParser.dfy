/** The command-line scanner: one pass over the tokens, with an index that steps back after a number
    that does not parse.

    `stoi` and `stod` are parameters: they give a number or throw.  Log output is not modelled.
 */
module ArgParser {
  import opened Split
  import opened Wrappers

  datatype ArgType = BOOL | STR | LIST | INT | FLOAT

  datatype ArgValue = B(b: bool) | I(i: int) | F(f: real) | S(s: string) | L(l: seq<string>)

  datatype ArgInfo = ArgInfo(kind: ArgType, value: ArgValue, hasValue: bool)

  type Registry = map<string, ArgInfo>

  /** The library's number readers. */
  datatype Readers = Readers(stoi: string -> Option<int>, stod: string -> Option<real>)

  /** What an option that takes one token makes of it; None stands for the exception. */
  function Convert(rd: Readers, kind: ArgType, token: string): Option<ArgValue> {
    match kind
    case INT => (match rd.stoi(token) case Some(n) => Some(I(n)) case None => None)
    case FLOAT => (match rd.stod(token) case Some(x) => Some(F(x)) case None => None)
    case _ => Some(S(token))
  }

  // ----- what a token sequence means -----

  type Kinds = map<string, ArgType>

  /** The parts a token sequence is read as. */
  datatype Item =
    | Flag(name: string)
    | Valued(name: string, token: string, value: ArgValue)
    | Missing(name: string)                 // the value would lie behind the last token
    | Rejected(name: string)                // the next token is not a number and is read again
    | Run(name: string, tokens: seq<string>)
    | Rest(tokens: seq<string>)

  /** The first position from i on that holds an option name. */
  function NextOption(args: seq<string>, kinds: Kinds, i: nat): (j: nat)
    requires i <= |args|
    ensures i <= j <= |args| && (j < |args| ==> args[j] in kinds)
    ensures forall k :: i <= k < j ==> args[k] !in kinds
    decreases |args| - i
  {
    if i == |args| || args[i] in kinds then i else NextOption(args, kinds, i + 1)
  }

  /** The tokens an item is made of. */
  function Unread(item: Item): seq<string> {
    match item
    case Flag(n) => [n]
    case Valued(n, t, _) => [n, t]
    case Missing(n) => [n]
    case Rejected(n) => [n]
    case Run(n, ts) => [n] + ts
    case Rest(ts) => ts
  }

  /** The item that begins at position i. */
  function ItemAt(args: seq<string>, kinds: Kinds, rd: Readers, i: nat): (item: Item)
    requires i < |args|
    ensures 0 < |Unread(item)| <= |args| - i && Unread(item) == args[i..i + |Unread(item)|]
  {
    if args[i] !in kinds then Rest(args[i..])
    else
      match kinds[args[i]]
      case BOOL => Flag(args[i])
      case LIST => Run(args[i], args[i + 1..NextOption(args, kinds, i + 1)])
      case kind =>
        if i + 1 == |args| then Missing(args[i])
        else match Convert(rd, kind, args[i + 1])
          case Some(v) => Valued(args[i], args[i + 1], v)
          case None => Rejected(args[i])
  }

  function Read(args: seq<string>, kinds: Kinds, rd: Readers, i: nat): seq<Item>
    requires i <= |args|
    decreases |args| - i
  {
    if i == |args| then []
    else
      var item := ItemAt(args, kinds, rd, i);
      [item] + Read(args, kinds, rd, i + |Unread(item)|)
  }

  lemma {:induction false} ReadUnfolds(args: seq<string>, kinds: Kinds, rd: Readers, i: nat)
    requires i < |args|
    ensures var item := ItemAt(args, kinds, rd, i);
            Read(args, kinds, rd, i) == [item] + Read(args, kinds, rd, i + |Unread(item)|)
  {
    hide ItemAt, Unread;
  }

  lemma ReadEnds(args: seq<string>, kinds: Kinds, rd: Readers, i: nat)
    requires i <= |args|
    ensures Read(args, kinds, rd, i) == [] <==> i == |args|
  {
    hide ItemAt, Unread;
  }

  /** The list an option holds so far. */
  function HeldList(info: ArgInfo): seq<string> {
    if info.hasValue && info.value.L? then info.value.l else []
  }

  function Apply(info: ArgInfo, item: Item): ArgInfo {
    match item
    case Flag(_) => info.(value := B(true), hasValue := true)
    case Valued(_, _, v) => info.(value := v, hasValue := true)
    case Run(_, tokens) =>
      var list := HeldList(info) + tokens;
      info.(value := L(list), hasValue := info.hasValue || list != [])
    case _ => info
  }

  function ApplyAll(reg: Registry, items: seq<Item>): Registry
    decreases |items|
  {
    if items == [] then reg
    else
      var item, n := items[|items| - 1], |items| - 1;
      var before := ApplyAll(reg, items[..n]);
      if !item.Rest? && item.name in before then before[item.name := Apply(before[item.name], item)] else before
  }

  /** A value that is no list: reading it as one throws. */
  predicate HoldsNoList(info: ArgInfo) {
    info.hasValue && !info.value.L?
  }

  /** An item that makes the parser read a value as a list that is none. */
  predicate Clashes(reg: Registry, item: Item) {
    item.Run? && item.name in reg && HoldsNoList(reg[item.name])
  }

  /** How many items are read before the parser throws. */
  function Survived(reg: Registry, items: seq<Item>): (n: nat)
    ensures n <= |items| && (n < |items| ==> Clashes(reg, items[n]))
    ensures forall k :: 0 <= k < n ==> !Clashes(reg, items[k])
  {
    if items == [] || Clashes(reg, items[0]) then 0 else 1 + Survived(reg, items[1..])
  }

  function KindsOf(reg: Registry): (kinds: Kinds)
    ensures kinds.Keys == reg.Keys && forall name :: name in reg ==> kinds[name] == reg[name].kind
  {
    map name | name in reg :: reg[name].kind
  }

  // ----- every token has one role -----

  function UnreadAll(items: seq<Item>): seq<string> {
    if items == [] then [] else Unread(items[0]) + UnreadAll(items[1..])
  }

  /** The items, written out again, are the tokens from i on: none is lost, none is used twice. */
  lemma {:induction false} ReadingLosesNothing(args: seq<string>, kinds: Kinds, rd: Readers, i: nat)
    requires i <= |args|
    ensures UnreadAll(Read(args, kinds, rd, i)) == args[i..]
    decreases |args| - i
  {
    hide Read, ItemAt, Unread;
    if i < |args| {
      var item := ItemAt(args, kinds, rd, i);
      var k := i + |Unread(item)|;
      ReadUnfolds(args, kinds, rd, i);
      ReadingLosesNothing(args, kinds, rd, k);
      assert ([item] + Read(args, kinds, rd, k))[1..] == Read(args, kinds, rd, k);
      assert args[i..] == args[i..k] + args[k..];
    } else {
      ReadEnds(args, kinds, rd, i);
    }
  }

  /** What an item can be: a rest begins with a token that is no option and takes all that is left, the
      tokens of a run are no options, and every other item is a registered option. */
  ghost predicate Proper(item: Item, kinds: Kinds, last: bool) {
    match item
    case Rest(ts) => last && ts != [] && ts[0] !in kinds
    case Run(n, ts) => n in kinds && kinds[n] == LIST && forall t :: t in ts ==> t !in kinds
    case Flag(n) => n in kinds && kinds[n] == BOOL
    case Valued(n, _, _) => n in kinds && kinds[n] != BOOL && kinds[n] != LIST
    case Missing(n) => n in kinds && kinds[n] != BOOL && kinds[n] != LIST && last
    case Rejected(n) => n in kinds && (kinds[n] == INT || kinds[n] == FLOAT)
  }

  lemma ItemIsProper(args: seq<string>, kinds: Kinds, rd: Readers, i: nat)
    requires i < |args|
    ensures var item := ItemAt(args, kinds, rd, i); Proper(item, kinds, i + |Unread(item)| == |args|)
  {
  }

  lemma {:induction false} ItemsAreProper(args: seq<string>, kinds: Kinds, rd: Readers, i: nat)
    requires i <= |args|
    ensures var items := Read(args, kinds, rd, i);
            forall k :: 0 <= k < |items| ==> Proper(items[k], kinds, k == |items| - 1)
    decreases |args| - i
  {
    hide Read, Proper, ItemAt, Unread;
    if i < |args| {
      var item := ItemAt(args, kinds, rd, i);
      var k := i + |Unread(item)|;
      ReadUnfolds(args, kinds, rd, i);
      ReadEnds(args, kinds, rd, k);
      ItemIsProper(args, kinds, rd, i);
      ItemsAreProper(args, kinds, rd, k);
    } else {
      ReadEnds(args, kinds, rd, i);
    }
  }

  /** What an item stands for, given the tokens behind it: a value is the token itself or the number read
      from it, a rejected token is no number, a value is missing only at the end, and a run goes on to the
      next option name or to the end. */
  ghost predicate MeansItsTokens(item: Item, behind: seq<string>, kinds: Kinds, rd: Readers) {
    match item
    case Valued(n, t, v) =>
      n in kinds &&
      (match kinds[n]
       case STR => v == S(t)
       case INT => exists k :: rd.stoi(t) == Some(k) && v == I(k)
       case FLOAT => exists x :: rd.stod(t) == Some(x) && v == F(x)
       case _ => false)
    case Rejected(n) =>
      n in kinds && behind != [] &&
      (match kinds[n]
       case INT => rd.stoi(behind[0]) == None
       case FLOAT => rd.stod(behind[0]) == None
       case _ => false)
    case Missing(_) => behind == []
    case Run(_, _) => behind == [] || behind[0] in kinds
    case Rest(_) => behind == []
    case Flag(_) => true
  }

  lemma ItemMeansItsTokens(args: seq<string>, kinds: Kinds, rd: Readers, i: nat)
    requires i < |args|
    ensures var item := ItemAt(args, kinds, rd, i);
            MeansItsTokens(item, args[i + |Unread(item)|..], kinds, rd)
  {
  }

  lemma {:induction false} ItemsMeanTheirTokens(args: seq<string>, kinds: Kinds, rd: Readers, i: nat, k: nat)
    requires i <= |args| && k < |Read(args, kinds, rd, i)|
    ensures var items := Read(args, kinds, rd, i);
            MeansItsTokens(items[k], UnreadAll(items[k + 1..]), kinds, rd)
    decreases |args| - i
  {
    hide Read, ItemAt, Unread, MeansItsTokens;
    ReadEnds(args, kinds, rd, i);
    ReadUnfolds(args, kinds, rd, i);
    var item := ItemAt(args, kinds, rd, i);
    var j := i + |Unread(item)|;
    var items, rest := Read(args, kinds, rd, i), Read(args, kinds, rd, j);
    assert items == [item] + rest;
    if k == 0 {
      ReadingLosesNothing(args, kinds, rd, j);
      assert items[1..] == rest;
      ItemMeansItsTokens(args, kinds, rd, i);
    } else {
      ItemsMeanTheirTokens(args, kinds, rd, j, k - 1);
      assert items[k + 1..] == rest[k..];
    }
  }

  // ----- what a run of items does to one option -----

  /** The items that concern an option, in order. */
  function Mine(items: seq<Item>, name: string): seq<Item>
    decreases |items|
  {
    if items == [] then []
    else
      var n := |items| - 1;
      Mine(items[..n], name) + if !items[n].Rest? && items[n].name == name then [items[n]] else []
  }

  function ApplyMine(info: ArgInfo, mine: seq<Item>): ArgInfo
    decreases |mine|
  {
    if mine == [] then info else Apply(ApplyMine(info, mine[..|mine| - 1]), mine[|mine| - 1])
  }

  /** An option ends up as its own items make it, whatever happens to the others. */
  lemma {:induction false} OptionsAreIndependent(reg: Registry, items: seq<Item>, name: string)
    ensures ApplyAll(reg, items).Keys == reg.Keys
    ensures name in reg ==> ApplyAll(reg, items)[name] == ApplyMine(reg[name], Mine(items, name))
    decreases |items|
  {
    hide Apply;
    if items != [] {
      var n := |items| - 1;
      OptionsAreIndependent(reg, items[..n], name);
      var mine := Mine(items[..n], name);
      assert (mine + [items[n]])[..|mine|] == mine;
      assert mine + [] == mine;
    }
  }

  /** The tokens of all runs, one run after the other. */
  function AllRuns(mine: seq<Item>): seq<string>
    decreases |mine|
  {
    if mine == [] then []
    else AllRuns(mine[..|mine| - 1]) + if mine[|mine| - 1].Run? then mine[|mine| - 1].tokens else []
  }

  /** A list option collects the tokens of all its runs, in order, behind what it held before. */
  lemma {:induction false} ListCollectsAllRuns(info: ArgInfo, mine: seq<Item>)
    requires info.kind == LIST && (info.hasValue ==> info.value.L?)
    requires forall k :: 0 <= k < |mine| ==> mine[k].Run?
    ensures var after := ApplyMine(info, mine);
            && (after.hasValue ==> after.value.L?)
            && HeldList(after) == HeldList(info) + AllRuns(mine)
            && (after.hasValue <==> info.hasValue || AllRuns(mine) != [])
    decreases |mine|
  {
    hide ApplyMine, AllRuns;
    if mine == [] {
      NothingMine(info);
    } else {
      var n := |mine| - 1;
      ListCollectsAllRuns(info, mine[..n]);
      ListTakesRun(info, mine, n);
      assert HeldList(info) + AllRuns(mine[..n]) + mine[n].tokens == HeldList(info) + (AllRuns(mine[..n]) + mine[n].tokens);
    }
  }

  lemma ListTakesRun(info: ArgInfo, mine: seq<Item>, n: nat)
    requires n == |mine| - 1 && mine[n].Run?
    ensures var before, after := ApplyMine(info, mine[..n]), ApplyMine(info, mine);
            && after.kind == before.kind && after.value == L(HeldList(before) + mine[n].tokens)
            && (after.hasValue <==> before.hasValue || HeldList(before) + mine[n].tokens != [])
            && AllRuns(mine) == AllRuns(mine[..n]) + mine[n].tokens
  {
  }

  /** The value of the last item that carries one. */
  function LastValue(mine: seq<Item>): Option<ArgValue>
    decreases |mine|
  {
    if mine == [] then None
    else
      match mine[|mine| - 1]
      case Valued(_, _, v) => Some(v)
      case Flag(_) => Some(B(true))
      case _ => LastValue(mine[..|mine| - 1])
  }

  /** Any other option keeps the last value it was given; failed conversions and missing values leave
      it alone. */
  lemma {:induction false} LastValueWins(info: ArgInfo, mine: seq<Item>)
    requires forall k :: 0 <= k < |mine| ==> !mine[k].Run?
    ensures ApplyMine(info, mine) ==
            match LastValue(mine)
            case None => info
            case Some(v) => info.(value := v, hasValue := true)
    decreases |mine|
  {
    if mine != [] {
      LastValueWins(info, mine[..|mine| - 1]);
    }
  }

  lemma {:induction false} MineConcern(items: seq<Item>, name: string)
    ensures forall item :: item in Mine(items, name) ==> item in items && !item.Rest? && item.name == name
    decreases |items|
  {
    if items != [] {
      MineConcern(items[..|items| - 1], name);
    }
  }

  /** All items of a list option are runs, and no item of another option is. */
  lemma {:induction false} RunsBelongToLists(args: seq<string>, kinds: Kinds, rd: Readers, i: nat, name: string, k: nat)
    requires i <= |args| && name in kinds && k < |Mine(Read(args, kinds, rd, i), name)|
    ensures Mine(Read(args, kinds, rd, i), name)[k].Run? <==> kinds[name] == LIST
  {
    hide Read, Mine, Proper;
    var items := Read(args, kinds, rd, i);
    var item := Mine(items, name)[k];
    MineConcern(items, name);
    ItemsAreProper(args, kinds, rd, i);
    assert item in items;
    var j :| 0 <= j < |items| && items[j] == item;
    ProperRun(item, kinds, j == |items| - 1);
  }

  lemma ProperRun(item: Item, kinds: Kinds, last: bool)
    requires Proper(item, kinds, last) && !item.Rest? && item.name in kinds
    ensures item.Missing? ==> kinds[item.name] != LIST
    ensures item.Run? <==> kinds[item.name] == LIST
  {
  }

  /** What parsing the tokens from position i on does to the option `name`, when it does not throw. */
  lemma {:induction false} OptionAfterParsing(args: seq<string>, reg: Registry, rd: Readers, i: nat, name: string)
    requires i <= |args| && name in reg
    requires var items := Read(args, KindsOf(reg), rd, i); forall k :: 0 <= k < |items| ==> !Clashes(reg, items[k])
    ensures var after := ApplyAll(reg, Read(args, KindsOf(reg), rd, i));
            var mine := Mine(Read(args, KindsOf(reg), rd, i), name);
            && name in after
            && (reg[name].kind == LIST ==>
                  && HeldList(after[name]) == HeldList(reg[name]) + AllRuns(mine)
                  && (after[name].hasValue <==> reg[name].hasValue || AllRuns(mine) != []))
            && (reg[name].kind != LIST ==>
                  after[name] == match LastValue(mine)
                                 case None => reg[name]
                                 case Some(v) => reg[name].(value := v, hasValue := true))
  {
    hide Read, Mine, ApplyAll, ApplyMine, AllRuns, LastValue, HeldList, Clashes;
    var items := Read(args, KindsOf(reg), rd, i);
    var mine := Mine(items, name);
    OptionsAreIndependent(reg, items, name);
    forall k | 0 <= k < |mine| ensures mine[k].Run? <==> reg[name].kind == LIST {
      RunsBelongToLists(args, KindsOf(reg), rd, i, name, k);
    }
    if reg[name].kind != LIST {
      LastValueWins(reg[name], mine);
    } else if HoldsNoList(reg[name]) {
      NothingClashes(reg, items, name);
      NothingMine(reg[name]);
    } else {
      ListCollectsAllRuns(reg[name], mine);
    }
  }

  /** The last token given to an option that takes one. */
  function LastToken(mine: seq<Item>): Option<string>
    decreases |mine|
  {
    if mine == [] then None
    else if mine[|mine| - 1].Valued? then Some(mine[|mine| - 1].token)
    else LastToken(mine[..|mine| - 1])
  }

  /** A string option holds the last token given to it, as it is. */
  lemma {:induction false} StringHoldsLastToken(args: seq<string>, reg: Registry, rd: Readers, i: nat, name: string)
    requires i <= |args| && name in reg && reg[name].kind == STR
    requires var items := Read(args, KindsOf(reg), rd, i); forall k :: 0 <= k < |items| ==> !Clashes(reg, items[k])
    ensures var items := Read(args, KindsOf(reg), rd, i);
            ApplyAll(reg, items).Keys == reg.Keys &&
            ApplyAll(reg, items)[name] == match LastToken(Mine(items, name))
                                          case None => reg[name]
                                          case Some(t) => reg[name].(value := S(t), hasValue := true)
  {
    hide Read, ApplyAll, Clashes, LastToken, LastValue, Mine;
    var items := Read(args, KindsOf(reg), rd, i);
    OptionsAreIndependent(reg, items, name);
    OptionAfterParsing(args, reg, rd, i, name);
    forall k | 0 <= k < |Mine(items, name)| ensures IsToken(Mine(items, name)[k]) {
      MineIsToken(args, KindsOf(reg), rd, i, name, k);
    }
    LastTokenIsLastValue(Mine(items, name));
  }

  /** An item that carries its token as it is, or nothing. */
  predicate IsToken(item: Item) {
    !item.Flag? && (item.Valued? ==> item.value == S(item.token))
  }

  lemma MineIsToken(args: seq<string>, kinds: Kinds, rd: Readers, i: nat, name: string, k: nat)
    requires i <= |args| && name in kinds && kinds[name] == STR && k < |Mine(Read(args, kinds, rd, i), name)|
    ensures IsToken(Mine(Read(args, kinds, rd, i), name)[k])
  {
    hide Read, Mine, UnreadAll;
    var items := Read(args, kinds, rd, i);
    var item := Mine(items, name)[k];
    MineConcern(items, name);
    assert item in items;
    var j :| 0 <= j < |items| && items[j] == item;
    ItemsMeanTheirTokens(args, kinds, rd, i, j);
    ItemsAreProper(args, kinds, rd, i);
    assert Proper(items[j], kinds, j == |items| - 1);
  }

  lemma {:induction false} LastTokenIsLastValue(mine: seq<Item>)
    requires forall k :: 0 <= k < |mine| ==> IsToken(mine[k])
    ensures LastValue(mine) == match LastToken(mine) case Some(t) => Some(S(t)) case None => None
    decreases |mine|
  {
    if mine != [] {
      LastTokenIsLastValue(mine[..|mine| - 1]);
    }
  }

  /** Where nothing throws, a list option that holds no list has no items. */
  lemma NothingClashes(reg: Registry, items: seq<Item>, name: string)
    requires name in reg && HoldsNoList(reg[name])
    requires forall k :: 0 <= k < |items| ==> !Clashes(reg, items[k])
    requires forall k :: 0 <= k < |Mine(items, name)| ==> Mine(items, name)[k].Run?
    ensures Mine(items, name) == []
  {
    if Mine(items, name) != [] {
      MineClashes(reg, items, name);
      assert false;
    }
  }

  lemma MineClashes(reg: Registry, items: seq<Item>, name: string)
    requires name in reg && HoldsNoList(reg[name])
    requires Mine(items, name) != [] && Mine(items, name)[0].Run?
    ensures exists k :: 0 <= k < |items| && Clashes(reg, items[k])
  {
    hide Mine;
    MineConcern(items, name);
    var item := Mine(items, name)[0];
    assert item in items;
    var j :| 0 <= j < |items| && items[j] == item;
    assert Clashes(reg, items[j]);
  }

  lemma NothingMine(info: ArgInfo)
    ensures ApplyMine(info, []) == info && AllRuns([]) == [] && HeldList(info) + [] == HeldList(info)
  {
  }

  // ----- from argv to tokens -----

  /** -h and --help are options of every parser, unless the names are taken. */
  function WithHelp(reg: Registry): Registry {
    var help := ArgInfo(BOOL, B(false), false);
    var r := if "-h" in reg then reg else reg["-h" := help];
    if "--help" in r then r else r["--help" := help]
  }

  lemma HelpIsRegistered(reg: Registry)
    ensures var r := WithHelp(reg);
            && r.Keys == reg.Keys + {"-h", "--help"}
            && forall n :: n in r ==>
                 r[n] == if n in reg then reg[n] else ArgInfo(BOOL, B(false), false)
  {
  }

  /** One argument, cut at every '='. */
  function CutUp(arg: string): seq<string> {
    Pieces(Scan(arg, ByChar('='), 0, 0))
  }

  function TokensOf(argv: seq<string>): seq<string>
    decreases |argv|
  {
    if argv == [] then [] else TokensOf(argv[..|argv| - 1]) + CutUp(argv[|argv| - 1])
  }

  /** The tokens of the arguments follow one another in the order of the arguments. */
  lemma {:induction false} TokensInOrder(a: seq<string>, b: seq<string>)
    ensures TokensOf(a + b) == TokensOf(a) + TokensOf(b)
    decreases |b|
  {
    hide CutUp;
    if b == [] {
      assert a + b == a;
    } else {
      var c, n := a + b, |b| - 1;
      assert c[..|c| - 1] == a + b[..n] && c[|c| - 1] == b[n];
      TokensInOrder(a, b[..n]);
    }
  }

  /** No token is empty or holds a '=', so dropping empty ones changes nothing. */
  lemma {:induction false} TokensAreCut(argv: seq<string>)
    ensures forall t :: t in TokensOf(argv) ==> t != "" && '=' !in t
    decreases |argv|
  {
    if argv != [] {
      var n := |argv| - 1;
      TokensAreCut(argv[..n]);
      MatchersFit('=', "");
      ScanIsGreedy(argv[n], ByChar('='), 0, 0);
      NoCharInPieces(argv[n], '=', Scan(argv[n], ByChar('='), 0, 0), 0);
    }
  }

  predicate Blank(s: string) {
    forall i :: 0 <= i < |s| ==> s[i] == ' '
  }

  function Strip(s: string): (r: string)
    ensures |r| <= |s|
    decreases |s|
  {
    if s == "" then ""
    else if s[0] == ' ' then Strip(s[1..])
    else if s[|s| - 1] == ' ' then Strip(s[..|s| - 1])
    else s
  }

  function StripAll(ts: seq<string>): seq<string>
    decreases |ts|
  {
    if ts == [] then [] else StripAll(ts[..|ts| - 1]) + [Strip(ts[|ts| - 1])]
  }

  lemma {:induction false} StripsEach(ts: seq<string>)
    ensures |StripAll(ts)| == |ts| && forall i :: 0 <= i < |ts| ==> StripAll(ts)[i] == Strip(ts[i])
    decreases |ts|
  {
    if ts != [] {
      StripsEach(ts[..|ts| - 1]);
    }
  }

  /** Stripping takes blanks off both ends and nothing else. */
  lemma {:induction false} StripTakesBlanks(s: string) returns (l: string, r: string)
    ensures Blank(l) && Blank(r) && s == l + Strip(s) + r
    ensures Strip(s) != "" ==> Strip(s)[0] != ' ' && Strip(s)[|Strip(s)| - 1] != ' '
    decreases |s|
  {
    if s == "" {
      l, r := "", "";
    } else if s[0] == ' ' {
      l, r := StripTakesBlanks(s[1..]);
      assert s == [s[0]] + s[1..];
      l := [s[0]] + l;
    } else if s[|s| - 1] == ' ' {
      l, r := StripTakesBlanks(s[..|s| - 1]);
      assert s == s[..|s| - 1] + [s[|s| - 1]];
      r := r + [s[|s| - 1]];
    } else {
      l, r := "", "";
    }
  }

  /** The arguments behind the program name, cut at every '='. */
  method Tokenize(argv: seq<string>) returns (tokens: seq<string>)
    requires argv != []
    ensures tokens == TokensOf(argv[1..])
  {
    hide FieldsOf, Scan, Pieces;
    tokens := [];
    for i := 1 to |argv|
      invariant tokens == TokensOf(argv[1..i])
    {
      var pieces := SplitChar(argv[i], '=');
      assert argv[1..i + 1][..i - 1] == argv[1..i];
      tokens := tokens + pieces;
    }
    assert argv[1..|argv|] == argv[1..];
  }

  /** Strips every token; on a token of blanks only, strip throws. */
  method StripTokens(tokens: seq<string>) returns (threw: bool, args: seq<string>)
    ensures threw <==> exists t :: t in tokens && Blank(t)
    ensures !threw ==> args == StripAll(tokens)
  {
    hide Strip, Blank;
    args := [];
    for i := 0 to |tokens|
      invariant args == StripAll(tokens[..i])
      invariant forall k :: 0 <= k < i ==> !Blank(tokens[k])
    {
      assert tokens[..i + 1][..i] == tokens[..i];
      if Blank(tokens[i]) {
        return true, [];
      }
      args := args + [Strip(tokens[i])];
    }
    assert tokens[..|tokens|] == tokens;
    threw := false;
  }

  lemma RunItem(args: seq<string>, kinds: Kinds, rd: Readers, i: nat, j: nat)
    requires i < |args| && args[i] in kinds && kinds[args[i]] == LIST && j == NextOption(args, kinds, i + 1)
    ensures var item := ItemAt(args, kinds, rd, i);
            item == Run(args[i], args[i + 1..j]) && i + |Unread(item)| == j
  {
  }

  /** The same options, with the same types, and the same ones hold no list. */
  ghost predicate Alike(reg: Registry, reg': Registry) {
    && KindsOf(reg') == KindsOf(reg)
    && forall n :: n in reg && n in reg' && reg[n].kind == LIST ==> (HoldsNoList(reg'[n]) <==> HoldsNoList(reg[n]))
  }

  lemma AlikeAfter(reg: Registry, name: string, info: ArgInfo)
    requires name in reg && info.kind == reg[name].kind
    requires info.kind == LIST ==> (HoldsNoList(info) <==> HoldsNoList(reg[name]))
    ensures Alike(reg, reg[name := info])
  {
  }

  lemma AlikeTwice(a: Registry, b: Registry, c: Registry)
    requires Alike(a, b) && Alike(b, c)
    ensures Alike(a, c)
  {
    SameNames(a, b);
    SameNames(b, c);
  }

  lemma SameNames(a: Registry, b: Registry)
    requires KindsOf(a) == KindsOf(b)
    ensures a.Keys == b.Keys && forall n :: n in a ==> n in b && a[n].kind == b[n].kind
  {
    assert KindsOf(a).Keys == KindsOf(b).Keys;
  }

  lemma ClashesAlike(reg: Registry, reg': Registry, args: seq<string>, rd: Readers, i: nat)
    requires Alike(reg, reg') && i < |args|
    ensures Clashes(reg, ItemAt(args, KindsOf(reg), rd, i)) <==> Clashes(reg', ItemAt(args, KindsOf(reg), rd, i))
  {
    SameNames(reg, reg');
  }

  lemma RestEnds(args: seq<string>, kinds: Kinds, rd: Readers, i: nat, reg: Registry, done: seq<Item>)
    requires i < |args| && args[i] !in kinds
    ensures RestOf(done + Read(args, kinds, rd, i)) == args[i..]
    ensures ApplyAll(reg, done + Read(args, kinds, rd, i)) == ApplyAll(reg, done)
  {
    var rest := Rest(args[i..]);
    assert ItemAt(args, kinds, rd, i) == rest && i + |Unread(rest)| == |args|;
    ReadUnfolds(args, kinds, rd, i);
    ReadEnds(args, kinds, rd, |args|);
    hide Read, ItemAt, Unread;
    assert Read(args, kinds, rd, i) == [rest];
    ApplyRest(reg, done, rest);
  }

  lemma ApplyRest(reg: Registry, done: seq<Item>, rest: Item)
    requires rest.Rest?
    ensures ApplyAll(reg, done + [rest]) == ApplyAll(reg, done)
  {
    hide Apply;
    assert (done + [rest])[..|done|] == done;
  }

  lemma NoRest(done: seq<Item>)
    requires done == [] || !done[|done| - 1].Rest?
    ensures RestOf(done) == []
  {
  }

  lemma ApplyNone(reg: Registry)
    ensures ApplyAll(reg, []) == reg
  {
  }

  lemma ApplyOne(reg: Registry, items: seq<Item>, item: Item)
    requires !item.Rest? && item.name in ApplyAll(reg, items)
    ensures ApplyAll(reg, items + [item]) ==
            ApplyAll(reg, items)[item.name := Apply(ApplyAll(reg, items)[item.name], item)]
  {
    assert (items + [item])[..|items|] == items;
  }

  function RestOf(items: seq<Item>): seq<string> {
    if items != [] && items[|items| - 1].Rest? then items[|items| - 1].tokens else []
  }

  lemma AlikeItself(reg: Registry)
    ensures Alike(reg, reg)
  {
  }

  lemma AlikeNames(reg: Registry, reg': Registry)
    requires Alike(reg, reg')
    ensures KindsOf(reg') == KindsOf(reg) && reg'.Keys == reg.Keys
  {
    SameNames(reg', reg);
  }

  lemma {:induction false} SurvivedUpTo(reg: Registry, items: seq<Item>, n: nat)
    requires n <= |items| && (n < |items| ==> Clashes(reg, items[n]))
    requires forall k :: 0 <= k < n ==> !Clashes(reg, items[k])
    ensures Survived(reg, items) == n
  {
    var m := Survived(reg, items);
    assert !(m < n) && !(n < m);
  }

  /** What is left over at the end never clashes. */
  lemma RestSurvives(reg: Registry, args: seq<string>, kinds: Kinds, rd: Readers, i: nat, done: seq<Item>)
    requires i < |args| && args[i] !in kinds && forall k :: 0 <= k < |done| ==> !Clashes(reg, done[k])
    ensures var items := done + Read(args, kinds, rd, i);
            Survived(reg, items) == |items| && items[..|items|] == items
  {
    var rest := Rest(args[i..]);
    assert ItemAt(args, kinds, rd, i) == rest && i + |Unread(rest)| == |args|;
    ReadUnfolds(args, kinds, rd, i);
    ReadEnds(args, kinds, rd, |args|);
    hide Read, ItemAt, Unread, Survived;
    assert Read(args, kinds, rd, i) == [rest];
    SurvivedUpTo(reg, done + [rest], |done| + 1);
  }

  /** What get_value_with_default gives. */
  datatype Listing = Threw | NoListing | Listed(list: seq<string>)

  // ----- the parser -----

  class ArgParser {
    const readers: Readers
    var fileName: string
    var frontDefaultArgs: seq<string>
    var backDefaultArgs: seq<string>
    var argInfoMp: Registry

    constructor (readers: Readers)
      ensures this.readers == readers && argInfoMp == map[] && frontDefaultArgs == [] && backDefaultArgs == []
    {
      this.readers, fileName := readers, "";
      frontDefaultArgs, backDefaultArgs, argInfoMp := [], [], map[];
    }

    /** A name must start with '-'; a name already present keeps its entry. */
    method AddArg(name: string, info: ArgInfo)
      modifies this`argInfoMp
      ensures argInfoMp == if name == "" || name[0] != '-' || name in old(argInfoMp) then old(argInfoMp)
                           else old(argInfoMp)[name := info]
    {
      if name != "" && name[0] == '-' && name !in argInfoMp {
        argInfoMp := argInfoMp[name := info];
      }
    }

    /** Stores what an option makes of the token behind it. */
    method Store(name: string, value: ArgValue)
      requires name in argInfoMp
      modifies this`argInfoMp
      ensures argInfoMp == old(argInfoMp)[name := old(argInfoMp)[name].(value := value, hasValue := true)]
    {
      argInfoMp := argInfoMp[name := argInfoMp[name].(value := value, hasValue := true)];
    }

    /** PARSE_ARGUMENT: one token is consumed, and given back when its conversion throws. */
    method ParseArgument(args: seq<string>, i: nat) returns (idx: nat)
      requires i < |args| && args[i] in argInfoMp
      requires argInfoMp[args[i]].kind != BOOL && argInfoMp[args[i]].kind != LIST
      modifies this`argInfoMp
      ensures var item := ItemAt(args, KindsOf(old(argInfoMp)), readers, i);
              && !item.Rest? && item.name == args[i]
              && idx + 1 == i + |Unread(item)|
              && argInfoMp == old(argInfoMp)[args[i] := Apply(old(argInfoMp)[args[i]], item)]
    {
      idx := i;
      if idx + 1 >= |args| {
        assert argInfoMp == argInfoMp[args[i] := argInfoMp[args[i]]];
      } else {
        idx := idx + 1;
        match Convert(readers, argInfoMp[args[i]].kind, args[idx]) {
          case Some(v) =>
            Store(args[i], v);
          case None =>
            idx := idx - 1;
            assert argInfoMp == argInfoMp[args[i] := argInfoMp[args[i]]];
        }
      }
    }

    /** The tokens up to the next option name, appended to a list. */
    method TakeRun(args: seq<string>, i: nat, before: seq<string>) returns (list: seq<string>, idx: nat)
      requires i <= |args|
      ensures idx == NextOption(args, KindsOf(argInfoMp), i)
      ensures list == before + args[i..idx]
    {
      ghost var kinds := KindsOf(argInfoMp);
      list, idx := before, i;
      while idx < |args| && args[idx] !in argInfoMp
        invariant i <= idx <= |args|
        invariant NextOption(args, kinds, idx) == NextOption(args, kinds, i)
        invariant list == before + args[i..idx]
      {
        assert args[i..idx + 1] == args[i..idx] + [args[idx]];
        list := list + [args[idx]];
        idx := idx + 1;
      }
    }

    /** The LIST case: everything up to the next option name is appended.  `std::get` throws when the option
        holds a value that is no list. */
    method ParseList(args: seq<string>, i: nat) returns (threw: bool, idx: nat)
      requires i < |args| && args[i] in argInfoMp && argInfoMp[args[i]].kind == LIST
      modifies this`argInfoMp
      ensures threw <==> HoldsNoList(old(argInfoMp)[args[i]])
      ensures threw ==> argInfoMp == old(argInfoMp)
      ensures var item := ItemAt(args, KindsOf(old(argInfoMp)), readers, i);
              && item.Run? && item.name == args[i]
              && (!threw ==>
                    && idx + 1 == i + |Unread(item)|
                    && argInfoMp == old(argInfoMp)[args[i] := Apply(old(argInfoMp)[args[i]], item)])
    {
      hide ItemAt, Unread, NextOption;
      var name := args[i];
      var info := argInfoMp[name];
      ghost var end := NextOption(args, KindsOf(argInfoMp), i + 1);
      RunItem(args, KindsOf(argInfoMp), readers, i, end);
      if info.hasValue && !info.value.L? {
        return true, i;
      }
      var list := if info.hasValue then info.value.l else [];
      assert list == HeldList(info);
      hide HeldList;
      list, idx := TakeRun(args, i + 1, list);
      idx := idx - 1;
      argInfoMp := argInfoMp[name := info.(value := L(list), hasValue := info.hasValue || list != [])];
      threw := false;
    }

    /** One turn of the main loop on an option: it consumes exactly one item, or throws. */
    method ParseOption(args: seq<string>, i: nat) returns (threw: bool, idx: nat)
      requires i < |args| && args[i] in argInfoMp
      modifies this`argInfoMp
      ensures Alike(old(argInfoMp), argInfoMp)
      ensures threw ==> argInfoMp == old(argInfoMp)
      ensures var item := ItemAt(args, KindsOf(old(argInfoMp)), readers, i);
              && !item.Rest? && item.name == args[i]
              && (threw <==> Clashes(old(argInfoMp), item))
              && (!threw ==>
                    && idx == i + |Unread(item)|
                    && argInfoMp == old(argInfoMp)[args[i] := Apply(old(argInfoMp)[args[i]], item)])
    {
      threw, idx := false, i;
      match argInfoMp[args[i]].kind {
        case BOOL =>
          Store(args[i], B(true));
        case LIST =>
          threw, idx := ParseList(args, i);
        case _ =>
          idx := ParseArgument(args, i);
      }
      idx := idx + 1;
      AlikeAfter(old(argInfoMp), args[i], argInfoMp[args[i]]);
    }

    /** The tokens in front of the first option name. */
    method TakeFront(args: seq<string>) returns (idx: nat)
      modifies this`frontDefaultArgs
      ensures idx == NextOption(args, KindsOf(argInfoMp), 0)
      ensures frontDefaultArgs == old(frontDefaultArgs) + args[..idx]
    {
      ghost var kinds := KindsOf(argInfoMp);
      idx := 0;
      while idx < |args| && args[idx] !in argInfoMp
        invariant 0 <= idx <= |args|
        invariant NextOption(args, kinds, idx) == NextOption(args, kinds, 0)
        invariant frontDefaultArgs == old(frontDefaultArgs) + args[..idx]
      {
        assert args[..idx + 1] == args[..idx] + [args[idx]];
        frontDefaultArgs := frontDefaultArgs + [args[idx]];
        idx := idx + 1;
      }
    }

    /** A token that is no option where one is expected: it and all behind it are kept as they are. */
    method TakeBack(args: seq<string>, i: nat)
      requires i <= |args|
      modifies this`backDefaultArgs
      ensures backDefaultArgs == old(backDefaultArgs) + args[i..]
    {
      var idx := i;
      while idx < |args|
        invariant i <= idx <= |args| && backDefaultArgs == old(backDefaultArgs) + args[i..idx]
      {
        backDefaultArgs := backDefaultArgs + [args[idx]];
        idx := idx + 1;
      }
    }

    /** The scanning part of parse. */
    method ParseTokens(args: seq<string>) returns (threw: bool)
      modifies this`frontDefaultArgs, this`backDefaultArgs, this`argInfoMp
      ensures var kinds := KindsOf(old(argInfoMp));
              var front := NextOption(args, kinds, 0);
              var items := Read(args, kinds, readers, front);
              var n := Survived(old(argInfoMp), items);
              && (threw <==> n < |items|)
              && frontDefaultArgs == old(frontDefaultArgs) + args[..front]
              && argInfoMp == ApplyAll(old(argInfoMp), items[..n])
              && backDefaultArgs == old(backDefaultArgs) + RestOf(items[..n])
    {
      hide Read, ItemAt, Unread, ApplyAll, Apply, RestOf, NextOption, Alike, Clashes, Survived;
      ghost var reg := argInfoMp;
      ghost var kinds := KindsOf(reg);
      var idx := TakeFront(args);
      ghost var front, done := idx, [];
      ghost var items := Read(args, kinds, readers, front);
      ApplyNone(reg);
      AlikeItself(reg);
      while idx < |args|
        invariant 0 <= idx <= |args|
        invariant Alike(reg, argInfoMp)
        invariant frontDefaultArgs == old(frontDefaultArgs) + args[..front] && backDefaultArgs == old(backDefaultArgs)
        invariant items == done + Read(args, kinds, readers, idx)
        invariant forall k :: 0 <= k < |done| ==> !done[k].Rest? && !Clashes(reg, done[k])
        invariant argInfoMp == ApplyAll(reg, done)
        decreases |args| - idx
      {
        AlikeNames(reg, argInfoMp);
        ReadUnfolds(args, kinds, readers, idx);
        ghost var item := ItemAt(args, kinds, readers, idx);
        if args[idx] !in argInfoMp {
          RestEnds(args, kinds, readers, idx, reg, done);
          RestSurvives(reg, args, kinds, readers, idx, done);
          TakeBack(args, idx);
          return false;
        }
        ClashesAlike(reg, argInfoMp, args, readers, idx);
        ghost var before := argInfoMp;
        threw, idx := ParseOption(args, idx);
        if threw {
          SurvivedUpTo(reg, items, |done|);
          assert items[..|done|] == done;
          NoRest(done);
          return;
        }
        AlikeTwice(reg, before, argInfoMp);
        ApplyOne(reg, done, item);
        done := done + [item];
      }
      ReadEnds(args, kinds, readers, idx);
      NoRest(done);
      assert items == done + [] == done;
      SurvivedUpTo(reg, items, |done|);
      assert items[..|done|] == done;
      threw := false;
    }

    /** parse: the arguments behind the program name are cut at every '=' and stripped of blanks, then
        scanned.  A token of blanks only makes strip throw before anything is scanned. */
    method Parse(argv: seq<string>) returns (threw: bool)
      requires argv != []
      modifies this
      ensures fileName == argv[0]
      ensures var blank := exists t :: t in TokensOf(argv[1..]) && Blank(t);
              var reg := WithHelp(old(argInfoMp));
              var args := StripAll(TokensOf(argv[1..]));
              var front := NextOption(args, KindsOf(reg), 0);
              var items := Read(args, KindsOf(reg), readers, front);
              var n := Survived(reg, items);
              && (threw <==> blank || n < |items|)
              && (blank ==>
                    && argInfoMp == reg
                    && frontDefaultArgs == old(frontDefaultArgs) && backDefaultArgs == old(backDefaultArgs))
              && (!blank ==>
                    && frontDefaultArgs == old(frontDefaultArgs) + args[..front]
                    && argInfoMp == ApplyAll(reg, items[..n])
                    && backDefaultArgs == old(backDefaultArgs) + RestOf(items[..n]))
    {
      hide Read, ApplyAll, RestOf, StripAll, TokensOf, Blank, WithHelp, NextOption, Survived;
      argInfoMp := WithHelp(argInfoMp);
      fileName := argv[0];
      var tokens := Tokenize(argv);
      var args;
      threw, args := StripTokens(tokens);
      if !threw {
        threw := ParseTokens(args);
      }
    }

    method GetValue(arg: string) returns (r: Option<ArgValue>)
      ensures r == if arg in argInfoMp && argInfoMp[arg].hasValue then Some(argInfoMp[arg].value) else None
    {
      if arg !in argInfoMp || !argInfoMp[arg].hasValue {
        return None;
      }
      return Some(argInfoMp[arg].value);
    }

    /** The list of an option, then the front arguments, then the back arguments; nothing for another
        type, an unknown name, or when all three are empty. */
    method GetValueWithDefault(arg: string) returns (r: Listing)
      ensures r.Threw? <==> arg in argInfoMp && argInfoMp[arg].kind == LIST && HoldsNoList(argInfoMp[arg])
      ensures r.Listed? <==>
              && arg in argInfoMp && argInfoMp[arg].kind == LIST && !HoldsNoList(argInfoMp[arg])
              && HeldList(argInfoMp[arg]) + frontDefaultArgs + backDefaultArgs != []
      ensures r.Listed? ==> r.list == HeldList(argInfoMp[arg]) + frontDefaultArgs + backDefaultArgs
    {
      if arg !in argInfoMp || argInfoMp[arg].kind != LIST {
        return NoListing;
      }
      var v := GetValue(arg);
      if v.Some? && !v.value.L? {
        return Threw;
      }
      var pv := if v.Some? then v.value.l else [];
      var ret := pv + frontDefaultArgs + backDefaultArgs;
      if ret == [] {
        return NoListing;
      }
      return Listed(ret);
    }
  }
}
