/** The builder's compile constructor: it edits the argument list in place while walking it. */
module ArgsRewrite {
  import opened Collections
  import opened ArgsRules

  /** args.splice(i, n) */
  function Splice(args: seq<string>, i: nat, n: nat): seq<string>
    requires i < |args|
  {
    args[..i] + if i + n <= |args| then args[i + n..] else []
  }

  class Compile {
    const cfg: Config
    var args: seq<string>
    var sourcePath: Option<string>
    var output: Option<string>
    var hasDashX: bool

    ghost function State(n: nat): Result
      reads this
      requires n <= |args|
    {
      Rewritten(args[..n], sourcePath, output, hasDashX)
    }

    constructor (cfg: Config, args: seq<string>)
      ensures this.cfg == cfg && this.args == args && sourcePath == None && output == None && !hasDashX
    {
      this.cfg, this.args := cfg, args;
      sourcePath, output, hasDashX := None, None, false;
    }

    /** The body of the loop at index i; the next index, or false for an exception. */
    method HandleOption(i: nat) returns (next: nat, ok: bool)
      requires i < |args|
      modifies this
      ensures ok == OneOption(cfg, old(args), i, old(State(i))).Rewritten?
      ensures ok ==> next <= |args| && args[next..] == old(args)[i + Width(old(args), i)..]
      ensures ok ==> State(next) == OneOption(cfg, old(args), i, old(State(i)))
    {
      ok, next := true, i + 1;
      match KindOf(args[i]) {
        case TakesOutput =>
          if i + 1 == |args| { return next, false; }
          next := TakeOutput(i);
        case DropWithOperand => next := Drop(i, 2);
        case DropAlone => next := Drop(i, 1);
        case TakesLanguage => next := TakeLanguage(i);
        case TakesOperand => next := Keep(i);
        case SourceFile =>
          if Truthy(sourcePath) { return next, false; }
          next := TakeSource(i);
        case Plain => next := Keep(i);
      }
    }

    method Drop(i: nat, n: nat) returns (next: nat)
      requires i < |args| && n == if KindOf(args[i]).DropWithOperand? then 2 else 1
      requires KindOf(args[i]).DropWithOperand? || KindOf(args[i]).DropAlone?
      modifies this
      ensures next <= |args| && args[next..] == old(args)[i + Width(old(args), i)..]
      ensures State(next) == OneOption(cfg, old(args), i, old(State(i)))
    {
      Spliced(args, i, n);
      args, next := Splice(args, i, n), i;
      assert args[..next] == old(args)[..i] + Emit(cfg, old(args), i);
    }

    method Keep(i: nat) returns (next: nat)
      requires i < |args| && (KindOf(args[i]).TakesOperand? || KindOf(args[i]).Plain?)
      modifies this
      ensures next <= |args| && args[next..] == old(args)[i + Width(old(args), i)..]
      ensures State(next) == OneOption(cfg, old(args), i, old(State(i)))
    {
      Taken(args, i);
      next := if KindOf(args[i]).TakesOperand? && i + 1 < |args| then i + 2 else i + 1;
      assert args[..next] == old(args)[..i] + Emit(cfg, old(args), i);
    }

    method TakeSource(i: nat) returns (next: nat)
      requires i < |args| && KindOf(args[i]).SourceFile? && !Truthy(sourcePath)
      modifies this
      ensures next <= |args| && args[next..] == old(args)[i + Width(old(args), i)..]
      ensures State(next) == OneOption(cfg, old(args), i, old(State(i)))
    {
      Edited(args, i, cfg.sourceName);
      sourcePath := Some(args[i]);
      args, next := args[i := cfg.sourceName], i + 1;
      assert args[..next] == old(args)[..i] + Emit(cfg, old(args), i);
    }

    method TakeOutput(i: nat) returns (next: nat)
      requires i + 1 < |args| && KindOf(args[i]).TakesOutput?
      modifies this
      ensures next <= |args| && args[next..] == old(args)[i + Width(old(args), i)..]
      ensures State(next) == OneOption(cfg, old(args), i, old(State(i)))
    {
      EditedOperand(args, i, cfg.basename(args[i + 1]));
      output := Some(args[i + 1]);
      args := args[i + 1 := cfg.basename(args[i + 1])];
      next := i + 2;
      assert args[..next] == old(args)[..i] + Emit(cfg, old(args), i);
    }

    method TakeLanguage(i: nat) returns (next: nat)
      requires i < |args| && KindOf(args[i]).TakesLanguage?
      modifies this
      ensures next <= |args| && args[next..] == old(args)[i + Width(old(args), i)..]
      ensures State(next) == OneOption(cfg, old(args), i, old(State(i)))
    {
      hasDashX := true;
      next := i + 1;
      Taken(args, i);
      if i + 1 < |args| {
        EditedOperand(args, i, Language(cfg.isClang, args[i + 1]));
        args, next := args[i + 1 := Language(cfg.isClang, args[i + 1])], i + 2;
      }
      assert args[..next] == old(args)[..i] + Emit(cfg, old(args), i);
    }

    /** The loop ends, and leaves what one pass over the original list computes, or throws when that fails. */
    method Rewrite() returns (ok: bool)
      requires sourcePath == None && output == None && !hasDashX
      modifies this
      ensures ok == OnePass(cfg, old(args), 0, START).Rewritten?
      ensures ok ==> State(|args|) == OnePass(cfg, old(args), 0, START)
    {
      ghost var orig, at := args, 0;
      var i: nat := 0;
      assert args[0..] == orig[0..] && State(0) == START;
      while i < |args|
        invariant i <= |args| && at <= |orig| && args[i..] == orig[at..]
        invariant OnePass(cfg, orig, 0, START) == OnePass(cfg, orig, at, State(i))
        decreases |orig| - at
      {
        SameRest(cfg, args, i, orig, at, State(i));
        var more: bool;
        i, more := HandleOption(i);
        if !more { return false; }
        at := at + Width(orig, at);
      }
      assert |args[i..]| == |orig[at..]|;
      return Truthy(sourcePath);
    }
  }

  lemma Spliced(args: seq<string>, i: nat, n: nat)
    requires i < |args|
    ensures Splice(args, i, n)[..i] == args[..i]
    ensures Splice(args, i, n)[i..] == if i + n <= |args| then args[i + n..] else []
  {}

  lemma Edited(args: seq<string>, i: nat, a: string)
    requires i < |args|
    ensures args[i := a][..i + 1] == args[..i] + [a] && args[i := a][i + 1..] == args[i + 1..]
  {}

  /** The operand of the option at i is replaced. */
  lemma EditedOperand(args: seq<string>, i: nat, a: string)
    requires i + 1 < |args|
    ensures args[i + 1 := a][..i + 2] == args[..i] + ([args[i]] + [a]) && args[i + 1 := a][i + 2..] == args[i + 2..]
  {}

  lemma Taken(args: seq<string>, i: nat)
    requires i < |args|
    ensures args[..i + 1] == args[..i] + [args[i]]
    ensures i + 1 < |args| ==> args[..i + 2] == args[..i] + [args[i], args[i + 1]]
  {}

  /** One option is handled by what is left of the list alone. */
  lemma SameRest(cfg: Config, args: seq<string>, i: nat, orig: seq<string>, at: nat, r: Result)
    requires i < |args| && at <= |orig| && args[i..] == orig[at..] && r.Rewritten?
    ensures at < |orig| && Width(args, i) == Width(orig, at)
            && OneOption(cfg, args, i, r) == OneOption(cfg, orig, at, r)
    ensures args[i + Width(args, i)..] == orig[at + Width(orig, at)..]
  {
    assert |args[i..]| == |args| - i && |orig[at..]| == |orig| - at;
    assert args[i] == args[i..][0] == orig[at..][0] == orig[at];
    if i + 1 < |args| { assert args[i + 1] == args[i..][1] == orig[at..][1] == orig[at + 1]; }
    var w := Width(args, i);
    assert args[i + w..] == args[i..][w..] && orig[at + w..] == orig[at..][w..];
  }
}
