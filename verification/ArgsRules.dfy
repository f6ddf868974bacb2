/** Which command-line arguments reach the builder's compiler, and as what. */
module ArgsRules {
  import opened Collections

  predicate StartsWith(s: string, prefix: string) { prefix <= s }

  datatype Kind =
    | TakesOutput      // -o
    | DropWithOperand  // include paths and dependency files, with a separate operand
    | DropAlone        // dependency switches, and the same paths joined to their option
    | TakesLanguage    // -x
    | TakesOperand     // kept with an operand that is never a source file
    | SourceFile       // anything that does not begin with a dash, the empty string included
    | Plain

  /** The options spelled out in full, besides -o and -x ... */
  const WITH_OPERAND: seq<string> := [
    "-MF", "-MT", "-cxx-isystem", "-isysroot", "-isystem", "-iquote", "-I", "-F"]
  const ALONE: seq<string> := ["-MMD", "-MD", "-MM", "-M"]
  const OPERAND_KEPT: seq<string> := [
    "--param", "-G", "-T", "-V", "-Xanalyzer", "-Xassembler", "-Xclang", "-Xlinker", "-Xpreprocessor", "-arch", "-b",
    "-gcc-toolchain", "-imacros", "-imultilib", "-include", "-iprefix", "-ivfsoverlay", "-iwithprefix",
    "-iwithprefixbefore", "-target", "-framework"]

  /** ... and those joined to their operand, which is dropped with them. */
  const PREFIXES: seq<string> := [
    "-mlinker-version=", "-stdlib=", "-I", "-F", "-isystem", "-isysroot", "-cxx-isystem", "-iquote", "--sysroot=",
    "--gcc-toolchain="]

  /** Which list names each kind. */
  const GROUPS: seq<(seq<string>, Kind)> := [
    (["-o"], TakesOutput), (["-x"], TakesLanguage), (WITH_OPERAND, DropWithOperand), (ALONE, DropAlone),
    (OPERAND_KEPT, TakesOperand)]

  function Listed(groups: seq<(seq<string>, Kind)>, arg: string): Option<Kind> {
    if groups == [] then None else if AnyOf(groups[0].0, arg) then Some(groups[0].1) else Listed(groups[1..], arg)
  }

  predicate AnyOf(options: seq<string>, arg: string) {
    options != [] && (options[0] == arg || AnyOf(options[1..], arg))
  }

  predicate AnyPrefix(prefixes: seq<string>, arg: string) {
    prefixes != [] && (StartsWith(arg, prefixes[0]) || AnyPrefix(prefixes[1..], arg))
  }

  /** Every listed option begins with a dash, so an argument that does not is a source file. */
  function KindOf(arg: string): Kind {
    if arg == "" || arg[0] != '-' then SourceFile
    else match Listed(GROUPS, arg)
      case Some(k) => k
      case None => if AnyPrefix(PREFIXES, arg) then DropAlone else Plain
  }

  /** A gcc is told the input is already preprocessed; a clang is not. */
  function Language(isClang: bool, x: string): string {
    if isClang then x
    else match x
      case "c" => "cpp-output"
      case "c++" => "c++-cpp-output"
      case "objective-c" => "objective-c-output"
      case "objective-c++" => "objective-c++-cpp-output"
      case _ => x
  }

  predicate TwoArgs(k: Kind) { k.TakesOutput? || k.DropWithOperand? || k.TakesLanguage? || k.TakesOperand? }

  /** The environment of one rewrite: the compiler family, where the source is put, and path.basename. */
  datatype Config = Config(isClang: bool, sourceName: string, basename: string -> string)

  // ---- what becomes of each position

  /** Position i is the operand of the option before it. */
  predicate IsOperand(args: seq<string>, i: nat)
    requires i <= |args|
  {
    i > 0 && !IsOperand(args, i - 1) && TwoArgs(KindOf(args[i - 1]))
  }

  predicate IsSource(args: seq<string>, i: nat)
    requires i < |args|
  {
    !IsOperand(args, i) && KindOf(args[i]).SourceFile?
  }

  /** What position i becomes, if it stays. */
  function Becomes(cfg: Config, args: seq<string>, i: nat): Option<string>
    requires i < |args|
  {
    if IsOperand(args, i) then
      match KindOf(args[i - 1])
      case TakesOutput => Some(cfg.basename(args[i]))
      case TakesLanguage => Some(Language(cfg.isClang, args[i]))
      case DropWithOperand => None
      case _ => Some(args[i])
    else
      match KindOf(args[i])
      case DropWithOperand => None
      case DropAlone => None
      case SourceFile => Some(cfg.sourceName)
      case _ => Some(args[i])
  }

  /** What the first n positions become, in order. */
  function Survivors(cfg: Config, args: seq<string>, n: nat): seq<string>
    requires n <= |args|
  {
    if n == 0 then []
    else match Becomes(cfg, args, n - 1)
      case None => Survivors(cfg, args, n - 1)
      case Some(a) => Survivors(cfg, args, n - 1) + [a]
  }

  /** The source operands among the first n positions. */
  function Sources(args: seq<string>, n: nat): seq<string>
    requires n <= |args|
  {
    if n == 0 then [] else Sources(args, n - 1) + if IsSource(args, n - 1) then [args[n - 1]] else []
  }

  /** The last -o operand among the first n positions. */
  function Output(args: seq<string>, n: nat): Option<string>
    requires n <= |args|
  {
    if n == 0 then None
    else if IsOperand(args, n - 1) && KindOf(args[n - 2]).TakesOutput? then Some(args[n - 1])
    else Output(args, n - 1)
  }

  predicate HasDashX(args: seq<string>, n: nat)
    requires n <= |args|
  {
    n > 0 && (HasDashX(args, n - 1) || (!IsOperand(args, n - 1) && KindOf(args[n - 1]).TakesLanguage?))
  }

  /** -o as the very last argument. */
  predicate OutputMissing(args: seq<string>) {
    args != [] && !IsOperand(args, |args| - 1) && KindOf(args[|args| - 1]).TakesOutput?
  }

  // ---- one pass over the list

  /** The values of the loop's variables; source is the last source operand seen. */
  datatype Result =
    | Failed
    | Rewritten(args: seq<string>, source: Option<string>, output: Option<string>, hasDashX: bool)

  /** How many positions the option at i takes up. */
  function Width(args: seq<string>, i: nat): (n: nat)
    requires i < |args|
    ensures 1 <= n <= |args| - i
  {
    if TwoArgs(KindOf(args[i])) && i + 1 < |args| then 2 else 1
  }

  function Emit(cfg: Config, args: seq<string>, i: nat): seq<string>
    requires i < |args|
  {
    var operand := if i + 1 < |args| then [args[i + 1]] else [];
    match KindOf(args[i])
    case TakesOutput => [args[i]] + if operand == [] then [] else [cfg.basename(operand[0])]
    case DropWithOperand => []
    case DropAlone => []
    case TakesLanguage => [args[i]] + if operand == [] then [] else [Language(cfg.isClang, operand[0])]
    case TakesOperand => [args[i]] + operand
    case SourceFile => [cfg.sourceName]
    case Plain => [args[i]]
  }

  predicate Truthy(s: Option<string>) { s.Some? && s.value != "" }

  /** One option at i, with its operand. */
  function OneOption(cfg: Config, args: seq<string>, i: nat, r: Result): Result
    requires i < |args| && r.Rewritten?
  {
    var k := KindOf(args[i]);
    if (k.TakesOutput? && i + 1 == |args|) || (k.SourceFile? && Truthy(r.source)) then Failed
    else Rewritten(
      r.args + Emit(cfg, args, i),
      if k.SourceFile? then Some(args[i]) else r.source,
      if k.TakesOutput? then Some(args[i + 1]) else r.output,
      r.hasDashX || k.TakesLanguage?)
  }

  function OnePass(cfg: Config, args: seq<string>, i: nat, r: Result): Result
    requires i <= |args|
    decreases |args| - i
  {
    if r.Failed? then Failed
    else if i == |args| then if Truthy(r.source) then r else Failed
    else OnePass(cfg, args, i + Width(args, i), OneOption(cfg, args, i, r))
  }

  const START := Rewritten([], None, None, false)

  // ---- the pass does to each position what becomes of it

  function LastOf(s: seq<string>): Option<string> { if s == [] then None else Some(s[|s| - 1]) }

  /** No source operand but the last is a non-empty string. */
  ghost predicate OnlyLastCounts(sources: seq<string>) { forall k :: 0 <= k < |sources| - 1 ==> sources[k] == "" }

  function UpTo(cfg: Config, args: seq<string>, i: nat): Result
    requires i <= |args|
  {
    Rewritten(Survivors(cfg, args, i), LastOf(Sources(args, i)), Output(args, i), HasDashX(args, i))
  }

  lemma NextPosition(cfg: Config, args: seq<string>, i: nat)
    requires i < |args| && !IsOperand(args, i)
    ensures !IsOperand(args, i + Width(args, i)) || (i + 1 == |args| && TwoArgs(KindOf(args[i])))
    ensures Survivors(cfg, args, i + Width(args, i)) == Survivors(cfg, args, i) + Emit(cfg, args, i)
    ensures Sources(args, i + Width(args, i)) ==
            Sources(args, i) + if KindOf(args[i]).SourceFile? then [args[i]] else []
    ensures HasDashX(args, i + Width(args, i)) <==> HasDashX(args, i) || KindOf(args[i]).TakesLanguage?
    ensures i + 1 < |args| || !KindOf(args[i]).TakesOutput? ==>
              Output(args, i + Width(args, i)) ==
              if KindOf(args[i]).TakesOutput? then Some(args[i + 1]) else Output(args, i)
  {
    if Width(args, i) == 2 {
      assert IsOperand(args, i + 1) && !IsOperand(args, i + 2);
      if KindOf(args[i]).DropWithOperand? {
        assert Survivors(cfg, args, i + 2) == Survivors(cfg, args, i);
      } else {
        assert Survivors(cfg, args, i + 1) == Survivors(cfg, args, i) + [args[i]];
      }
    }
  }

  lemma {:induction false} SourcesGrow(args: seq<string>, m: nat, n: nat)
    requires m <= n <= |args|
    ensures Sources(args, m) <= Sources(args, n)
  {
    if m < n { SourcesGrow(args, m, n - 1); }
  }

  /** A non-empty source operand followed by another one is fatal. */
  lemma SecondSource(args: seq<string>, i: nat)
    requires i < |args| && IsSource(args, i) && Truthy(LastOf(Sources(args, i)))
    ensures !OnlyLastCounts(Sources(args, |args|))
  {
    var k := |Sources(args, i)| - 1;
    SourcesGrow(args, i + 1, |args|);
    assert Sources(args, i + 1)[k] == Sources(args, i)[k];
    assert Sources(args, |args|)[k] != "" && k < |Sources(args, |args|)| - 1;
  }

  lemma StillOnlyLast(sources: seq<string>, a: string)
    requires OnlyLastCounts(sources) && !Truthy(LastOf(sources))
    ensures OnlyLastCounts(sources + [a])
  {}

  /** The option at i ends the pass: -o without its operand, or a source after a non-empty one. */
  predicate Fails(args: seq<string>, i: nat)
    requires i < |args|
  {
    var k := KindOf(args[i]);
    (k.TakesOutput? && i + 1 == |args|) || (k.SourceFile? && Truthy(LastOf(Sources(args, i))))
  }

  lemma OneFails(cfg: Config, args: seq<string>, i: nat)
    requires i < |args| && !IsOperand(args, i) && Fails(args, i)
    ensures OneOption(cfg, args, i, UpTo(cfg, args, i)) == Failed
    ensures OutputMissing(args) || !OnlyLastCounts(Sources(args, |args|))
  {
    if KindOf(args[i]).SourceFile? { SecondSource(args, i); }
  }

  lemma OneUpTo(cfg: Config, args: seq<string>, i: nat)
    requires i < |args| && !IsOperand(args, i) && !Fails(args, i)
    ensures OneOption(cfg, args, i, UpTo(cfg, args, i)) == UpTo(cfg, args, i + Width(args, i))
  {
    NextPosition(cfg, args, i);
  }

  lemma Onward(cfg: Config, args: seq<string>, i: nat)
    requires i < |args| && !IsOperand(args, i) && !Fails(args, i) && OnlyLastCounts(Sources(args, i))
    ensures var next := i + Width(args, i);
            OnlyLastCounts(Sources(args, next)) && (IsOperand(args, next) ==> next == |args| && !OutputMissing(args))
  {
    NextPosition(cfg, args, i);
    if KindOf(args[i]).SourceFile? { StillOnlyLast(Sources(args, i), args[i]); }
  }

  lemma PassStep(cfg: Config, args: seq<string>, i: nat, r: Result, next: Result)
    requires i < |args| && r.Rewritten? && next == OneOption(cfg, args, i, r)
    ensures OnePass(cfg, args, i, r) == if next.Failed? then Failed else OnePass(cfg, args, i + Width(args, i), next)
  {}

  lemma {:induction false} OnePassFrom(cfg: Config, args: seq<string>, i: nat)
    requires i <= |args| && OnlyLastCounts(Sources(args, i))
    requires !IsOperand(args, i) || (i == |args| && !OutputMissing(args))
    ensures OnePass(cfg, args, i, UpTo(cfg, args, i)) ==
            if OnlyLastCounts(Sources(args, |args|)) && Truthy(LastOf(Sources(args, |args|))) && !OutputMissing(args)
            then UpTo(cfg, args, |args|) else Failed
    decreases |args| - i
  {
    if i < |args| {
      PassStep(cfg, args, i, UpTo(cfg, args, i), OneOption(cfg, args, i, UpTo(cfg, args, i)));
      if Fails(args, i) {
        OneFails(cfg, args, i);
      } else {
        OneUpTo(cfg, args, i);
        Onward(cfg, args, i);
        OnePassFrom(cfg, args, i + Width(args, i));
      }
    }
  }

  /** The rewrite succeeds exactly when -o has its operand and the last source operand is the only non-empty one; then
      each position has become what its own text and whether it is an operand say, in the original order. */
  lemma RewriteIff(cfg: Config, args: seq<string>)
    ensures OnePass(cfg, args, 0, START) ==
            if OnlyLastCounts(Sources(args, |args|)) && Truthy(LastOf(Sources(args, |args|))) && !OutputMissing(args)
            then UpTo(cfg, args, |args|) else Failed
  {
    OnePassFrom(cfg, args, 0);
  }

  // ---- what that means for the options

  /** With no empty argument it is exactly one source operand, and that one became the source file's own name. */
  lemma ExactlyOneSource(cfg: Config, args: seq<string>)
    requires "" !in args
    ensures OnePass(cfg, args, 0, START).Rewritten? <==> |Sources(args, |args|)| == 1 && !OutputMissing(args)
  {
    RewriteIff(cfg, args);
    SourcesAreArgs(args, |args|);
    var sources := Sources(args, |args|);
    assert sources != [] ==> sources[0] in sources && sources[|sources| - 1] in sources;
  }

  lemma {:induction false} SourcesAreArgs(args: seq<string>, n: nat)
    requires n <= |args|
    ensures forall a <- Sources(args, n) :: a in args
  {
    if n > 0 { SourcesAreArgs(args, n - 1); }
  }

  /** An empty argument before the source counts as a source operand but does not forbid another: two sources, no
      error. */
  lemma EmptyArgumentIsASource(cfg: Config)
    ensures OnePass(cfg, ["", "a.c"], 0, START) == Rewritten([cfg.sourceName, cfg.sourceName], Some("a.c"), None, false)
    ensures OnePass(cfg, [""], 0, START) == Failed
  {
    var args := ["", "a.c"];
    var first := Rewritten([cfg.sourceName], Some(""), None, false);
    assert OneOption(cfg, args, 0, START) == first;
    assert OneOption(cfg, args, 1, first) == Rewritten([cfg.sourceName, cfg.sourceName], Some("a.c"), None, false);
  }

  /** A dropped option leaves nothing of itself or its operand: every survivor is a kept argument, an edited operand or
      the source's name. */
  lemma {:induction false} SurvivorsAreWanted(cfg: Config, args: seq<string>, n: nat, a: string)
    requires n <= |args| && a in Survivors(cfg, args, n)
    ensures exists i :: 0 <= i < n && Becomes(cfg, args, i) == Some(a)
  {
    if Becomes(cfg, args, n - 1) != Some(a) { SurvivorsAreWanted(cfg, args, n - 1, a); }
  }

  /** The list without the option at i and, if it has one, its operand. */
  function Without(args: seq<string>, i: nat): (r: seq<string>)
    requires i < |args|
    ensures |r| == |args| - Width(args, i)
  {
    args[..i] + args[i + Width(args, i)..]
  }

  /** What the pass has after m positions of the one list is what it has after n of the other. */
  ghost predicate Alike(cfg: Config, a: seq<string>, m: nat, b: seq<string>, n: nat)
    requires m <= |a| && n <= |b|
  {
    UpTo(cfg, a, m) == UpTo(cfg, b, n) && Sources(a, m) == Sources(b, n)
  }

  lemma {:induction false} SamePrefix(cfg: Config, a: seq<string>, b: seq<string>, n: nat)
    requires n <= |a| && n <= |b| && forall k :: 0 <= k < n ==> a[k] == b[k]
    ensures (IsOperand(a, n) <==> IsOperand(b, n)) && Alike(cfg, a, n, b, n)
  {
    if n > 0 { SamePrefix(cfg, a, b, n - 1); }
  }

  /** A path option and its operand leave nothing. */
  lemma NothingEmitted(cfg: Config, args: seq<string>, i: nat)
    requires i < |args| && !IsOperand(args, i) && KindOf(args[i]).DropWithOperand?
    ensures Alike(cfg, args, i + Width(args, i), args, i)
    ensures Width(args, i) == 2 ==> !IsOperand(args, i + 2)
  {
    NextPosition(cfg, args, i);
    assert Survivors(cfg, args, i) + [] == Survivors(cfg, args, i) && Sources(args, i) + [] == Sources(args, i);
  }

  lemma {:induction false} Shifted(cfg: Config, args: seq<string>, i: nat, without: seq<string>, n: nat)
    requires i < |args| && !IsOperand(args, i) && KindOf(args[i]).DropWithOperand? && Width(args, i) == 2
    requires without == Without(args, i) && i <= n <= |without|
    ensures (IsOperand(args, n + 2) <==> IsOperand(without, n)) && Alike(cfg, args, n + 2, without, n)
    decreases n
  {
    if n == i {
      SamePrefix(cfg, args, without, i);
      NothingEmitted(cfg, args, i);
    } else {
      Shifted(cfg, args, i, without, n - 1);
      ShiftOne(cfg, args, i, without, n - 1);
    }
  }

  lemma ShiftOne(cfg: Config, args: seq<string>, i: nat, without: seq<string>, n: nat)
    requires i < |args| && !IsOperand(args, i) && KindOf(args[i]).DropWithOperand? && Width(args, i) == 2
    requires without == Without(args, i) && i <= n < |without|
    requires (IsOperand(args, n + 2) <==> IsOperand(without, n)) && Alike(cfg, args, n + 2, without, n)
    requires n == i ==> !IsOperand(without, n)
    ensures (IsOperand(args, n + 3) <==> IsOperand(without, n + 1)) && Alike(cfg, args, n + 3, without, n + 1)
  {
    assert without[n] == args[n + 2];
    if n > i { assert without[n - 1] == args[n + 1]; }
  }

  /** A path option disappears together with its operand wherever it stands, and whatever the operand looks like: the
      rewrite comes out as if neither had been there. */
  lemma PathOptionVanishes(cfg: Config, args: seq<string>, i: nat)
    requires i < |args| && !IsOperand(args, i) && KindOf(args[i]).DropWithOperand?
    ensures var without := Without(args, i);
            && OnePass(cfg, args, 0, START) == OnePass(cfg, without, 0, START)
            && Survivors(cfg, args, |args|) == Survivors(cfg, without, |without|)
            && Sources(args, |args|) == Sources(without, |without|)
  {
    AlikeAtEnd(cfg, args, i);
    SameMissing(cfg, args, i);
    RewriteIff(cfg, args);
    RewriteIff(cfg, Without(args, i));
  }

  lemma AlikeAtEnd(cfg: Config, args: seq<string>, i: nat)
    requires i < |args| && !IsOperand(args, i) && KindOf(args[i]).DropWithOperand?
    ensures Alike(cfg, args, |args|, Without(args, i), |Without(args, i)|)
  {
    var without := Without(args, i);
    if Width(args, i) == 2 {
      AlikeBehind(cfg, args, i, without);
    } else {
      AlikeInFront(cfg, args, i, without);
    }
  }

  lemma AlikeBehind(cfg: Config, args: seq<string>, i: nat, without: seq<string>)
    requires i < |args| && !IsOperand(args, i) && KindOf(args[i]).DropWithOperand? && Width(args, i) == 2
    requires without == Without(args, i)
    ensures Alike(cfg, args, |args|, without, |without|)
  {
    var n := |without|;
    assert |args| == n + 2;
    Shifted(cfg, args, i, without, n);
  }

  lemma AlikeInFront(cfg: Config, args: seq<string>, i: nat, without: seq<string>)
    requires i < |args| && !IsOperand(args, i) && KindOf(args[i]).DropWithOperand?
    requires without == args[..i]
    ensures Alike(cfg, args, i + Width(args, i), without, i)
  {
    SamePrefix(cfg, args, without, i);
    NothingEmitted(cfg, args, i);
  }

  lemma SameMissing(cfg: Config, args: seq<string>, i: nat)
    requires i < |args| && !IsOperand(args, i) && KindOf(args[i]).DropWithOperand?
    ensures OutputMissing(args) <==> OutputMissing(Without(args, i))
  {
    var without := Without(args, i);
    if i < |without| {
      MissingAlike(cfg, args, i, without);
    } else {
      MissingNeither(cfg, args, i, without);
    }
  }

  lemma MissingAlike(cfg: Config, args: seq<string>, i: nat, without: seq<string>)
    requires i < |args| && !IsOperand(args, i) && KindOf(args[i]).DropWithOperand?
    requires without == Without(args, i) && i < |without|
    ensures OutputMissing(args) <==> OutputMissing(without)
  {
    Shifted(cfg, args, i, without, |without| - 1);
    MissingBoth(args, without);
  }

  lemma MissingBoth(a: seq<string>, b: seq<string>)
    requires a != [] && b != [] && a[|a| - 1] == b[|b| - 1] && (IsOperand(a, |a| - 1) <==> IsOperand(b, |b| - 1))
    ensures OutputMissing(a) <==> OutputMissing(b)
  {}

  /** The path option and its operand, if any, end the list. */
  lemma MissingNeither(cfg: Config, args: seq<string>, i: nat, without: seq<string>)
    requires i < |args| && !IsOperand(args, i) && KindOf(args[i]).DropWithOperand?
    requires without == args[..i] && |args| == i + Width(args, i)
    ensures !OutputMissing(args) && !OutputMissing(without)
  {
    if i > 0 { SamePrefix(cfg, args, without, i - 1); }
  }

  // ---- which option is which

  lemma {:induction false} AnyOfIs(options: seq<string>, a: string)
    ensures AnyOf(options, a) <==> a in options
  {
    if options != [] { AnyOfIs(options[1..], a); }
  }

  lemma {:induction false} AnyPrefixIs(prefixes: seq<string>, a: string)
    ensures AnyPrefix(prefixes, a) <==> exists i :: 0 <= i < |prefixes| && prefixes[i] <= a
  {
    if prefixes != [] {
      AnyPrefixIs(prefixes[1..], a);
      if i :| 0 < i < |prefixes| && prefixes[i] <= a { assert prefixes[1..][i - 1] <= a; }
    }
  }

  /** The lists, one after the other. */
  lemma ListedIs(a: string)
    ensures Listed(GROUPS, a) ==
            if a in ["-o"] then Some(TakesOutput)
            else if a in ["-x"] then Some(TakesLanguage)
            else if a in WITH_OPERAND then Some(DropWithOperand)
            else if a in ALONE then Some(DropAlone)
            else if a in OPERAND_KEPT then Some(TakesOperand)
            else None
  {
    AnyOfIs(["-o"], a);
    AnyOfIs(["-x"], a);
    AnyOfIs(WITH_OPERAND, a);
    AnyOfIs(ALONE, a);
    AnyOfIs(OPERAND_KEPT, a);
    var g := GROUPS;
    assert Listed(g[5..], a) == None;
    ListedStep(g, 4, a);
    ListedStep(g, 3, a);
    ListedStep(g, 2, a);
    ListedStep(g, 1, a);
    ListedStep(g, 0, a);
    assert g[0..] == g;
  }

  lemma ListedStep(groups: seq<(seq<string>, Kind)>, i: nat, a: string)
    requires i < |groups|
    ensures Listed(groups[i..], a) ==
            if AnyOf(groups[i].0, a) then Some(groups[i].1) else Listed(groups[i + 1..], a)
  {
    assert groups[i..][1..] == groups[i + 1..];
  }

  /** -o and -x are themselves; the path options and dependency files are dropped with an operand of their own ... */
  lemma DroppedWithOperand(a: string)
    ensures KindOf(a) == TakesOutput <==> a == "-o"
    ensures KindOf(a) == TakesLanguage <==> a == "-x"
    ensures KindOf(a) == DropWithOperand <==>
            a in {"-MF", "-MT", "-cxx-isystem", "-isysroot", "-isystem", "-iquote", "-I", "-F"}
    ensures KindOf(a) == SourceFile <==> !("-" <= a)
  {
    ListedIs(a);
  }

  /** The kept ones are in no other list. */
  lemma KeptApart(a: string)
    requires a in OPERAND_KEPT
    ensures a !in ["-o"] && a !in ["-x"] && a !in WITH_OPERAND && a !in ALONE && "-" <= a
  {
    KeptOrWith(a);
  }

  lemma KeptOrWith(a: string)
    ensures a in OPERAND_KEPT ==> a !in WITH_OPERAND
  {}

  lemma AloneApart(a: string)
    requires a in ALONE
    ensures a !in ["-o"] && a !in ["-x"] && a !in WITH_OPERAND && "-" <= a
  {}

  /** ... these keep an operand, which is no source file ... */
  lemma OperandKept(a: string)
    ensures KindOf(a) == TakesOperand <==>
            || a in {"--param", "-G", "-T", "-V", "-Xanalyzer", "-Xassembler", "-Xclang", "-Xlinker", "-Xpreprocessor"}
            || a in {"-arch", "-b", "-gcc-toolchain", "-imacros", "-imultilib", "-include", "-iprefix", "-ivfsoverlay"}
            || a in {"-iwithprefix", "-iwithprefixbefore", "-target", "-framework"}
  {
    KeptIff(a);
    InKept(a);
  }

  lemma KeptIff(a: string)
    ensures KindOf(a) == TakesOperand <==> a in OPERAND_KEPT
  {
    ListedIs(a);
    if a in OPERAND_KEPT { KeptApart(a); }
  }

  lemma InKept(a: string)
    ensures a in OPERAND_KEPT <==>
            || a in {"--param", "-G", "-T", "-V", "-Xanalyzer", "-Xassembler", "-Xclang", "-Xlinker", "-Xpreprocessor"}
            || a in {"-arch", "-b", "-gcc-toolchain", "-imacros", "-imultilib", "-include", "-iprefix", "-ivfsoverlay"}
            || a in {"-iwithprefix", "-iwithprefixbefore", "-target", "-framework"}
  {}

  predicate Joined(a: string) {
    || "-I" <= a || "-F" <= a || "-isystem" <= a || "-isysroot" <= a || "-cxx-isystem" <= a || "-iquote" <= a
    || "-mlinker-version=" <= a || "-stdlib=" <= a || "--sysroot=" <= a || "--gcc-toolchain=" <= a
  }

  lemma PrefixIs(a: string)
    ensures AnyPrefix(PREFIXES, a) <==> Joined(a)
  {
    var p := PREFIXES;
    AnyPrefixIs(p, a);
    assert p[0] == "-mlinker-version=" && p[1] == "-stdlib=" && p[2] == "-I" && p[3] == "-F" && p[4] == "-isystem";
    assert p[5] == "-isysroot" && p[6] == "-cxx-isystem" && p[7] == "-iquote" && p[8] == "--sysroot=";
    assert p[9] == "--gcc-toolchain=" && |p| == 10;
  }

  /** By the letters behind the dash. */
  predicate JoinedLetters(a: string) {
    && |a| >= 2
    && (a[1] in {'I', 'F', 'c', 'm', 's'} || (|a| >= 3 && a[1] == 'i' && a[2] in {'s', 'q'})
        || (|a| >= 3 && a[1] == '-' && a[2] in {'s', 'g'}))
  }

  lemma JoinedBegin(a: string)
    requires Joined(a)
    ensures JoinedLetters(a)
  {}

  lemma KeptNotJoined(a: string)
    requires a in OPERAND_KEPT
    ensures !JoinedLetters(a)
  {}

  lemma OthersNotJoined(a: string)
    requires a in ALONE || a in ["-o"] || a in ["-x"]
    ensures !JoinedLetters(a)
  {}

  lemma JoinedApart(a: string)
    requires Joined(a)
    ensures a !in ALONE && a !in ["-o"] && a !in ["-x"] && a !in OPERAND_KEPT && "-" <= a
  {
    JoinedBegin(a);
    if a in OPERAND_KEPT { KeptNotJoined(a); }
    if a in ALONE || a in ["-o"] || a in ["-x"] { OthersNotJoined(a); }
  }

  lemma AloneIff(a: string)
    ensures KindOf(a) == DropAlone <==> a in ALONE || (Joined(a) && KindOf(a) != DropWithOperand)
  {
    ListedIs(a);
    PrefixIs(a);
    if Joined(a) { JoinedApart(a); }
    if a in ALONE { AloneApart(a); }
  }

  /** ... and the dependency switches are dropped, and whatever else begins like a path option. */
  lemma DroppedAlone(a: string)
    ensures KindOf(a) == DropAlone <==>
            || a in {"-MMD", "-MD", "-MM", "-M"}
            || ((|| "-I" <= a || "-F" <= a || "-isystem" <= a || "-isysroot" <= a || "-cxx-isystem" <= a
                 || "-iquote" <= a || "-mlinker-version=" <= a || "-stdlib=" <= a || "--sysroot=" <= a
                 || "--gcc-toolchain=" <= a)
                && KindOf(a) != DropWithOperand)
  {
    AloneIff(a);
  }

  /** A gcc is told that the language it is given is preprocessed already. */
  lemma LanguageIs(x: string)
    ensures Language(true, x) == x
    ensures Language(false, "c") == "cpp-output" && Language(false, "c++") == "c++-cpp-output"
    ensures Language(false, "objective-c") == "objective-c-output"
    ensures Language(false, "objective-c++") == "objective-c++-cpp-output"
    ensures x !in {"c", "c++", "objective-c", "objective-c++"} ==> Language(false, x) == x
  {}

  /** What an option of each kind and its operand become, whatever the operand looks like: edited operands and the
      source's name ... */
  lemma EditedExample(cfg: Config, out: string)
    requires !cfg.isClang
    ensures OnePass(cfg, ["-o", out, "-x", "c", "a.c"], 0, START) ==
            Rewritten(["-o", cfg.basename(out), "-x", "cpp-output", cfg.sourceName], Some("a.c"), Some(out), true)
  {
    var args := ["-o", out, "-x", "c", "a.c"];
    DroppedWithOperand("-o");
    DroppedWithOperand("-x");
    LanguageIs("c");
    var r2 := Rewritten(["-o", cfg.basename(out)], None, Some(out), false);
    var r4 := Rewritten(["-o", cfg.basename(out), "-x", "cpp-output"], None, Some(out), true);
    var r5 := Rewritten(["-o", cfg.basename(out), "-x", "cpp-output", cfg.sourceName], Some("a.c"), Some(out), true);
    PassStep(cfg, args, 0, START, r2);
    assert r2.args + ["-x", "cpp-output"] == r4.args && ["-x"] + ["cpp-output"] == ["-x", "cpp-output"];
    PassStep(cfg, args, 2, r2, r4);
    PassStep(cfg, args, 4, r4, r5);
  }

  /** ... what is dropped ... */
  lemma DroppedExample(cfg: Config, path: string)
    ensures OnePass(cfg, ["-isystem", path, "-MMD", "a.c"], 0, START) ==
            Rewritten([cfg.sourceName], Some("a.c"), None, false)
  {
    var args := ["-isystem", path, "-MMD", "a.c"];
    DroppedWithOperand("-isystem");
    DroppedAlone("-MMD");
    PassStep(cfg, args, 0, START, START);
    PassStep(cfg, args, 2, START, START);
    PassStep(cfg, args, 3, START, Rewritten([cfg.sourceName], Some("a.c"), None, false));
  }

  /** ... and what is kept. */
  lemma KeptExample(cfg: Config, header: string)
    ensures OnePass(cfg, ["-include", header, "-g", "a.c"], 0, START) ==
            Rewritten(["-include", header, "-g", cfg.sourceName], Some("a.c"), None, false)
  {
    var args := ["-include", header, "-g", "a.c"];
    OperandKept("-include");
    DashGIsPlain();
    var r2 := Rewritten(["-include", header], None, None, false);
    var r3 := Rewritten(["-include", header, "-g"], None, None, false);
    assert START.args + ["-include", header] == r2.args;
    PassStep(cfg, args, 0, START, r2);
    PassStep(cfg, args, 2, r2, r3);
    PassStep(cfg, args, 3, r3, Rewritten(["-include", header, "-g", cfg.sourceName], Some("a.c"), None, false));
  }

  lemma DashGIsPlain()
    ensures KindOf("-g") == Plain
  {
    DroppedWithOperand("-g");
    KeptIff("-g");
    AloneIff("-g");
    if Joined("-g") { JoinedBegin("-g"); }
  }
}
