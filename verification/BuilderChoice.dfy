/** Which builder a compile is given: the best score among those that qualify, holders of its cached object first. */
module BuilderChoice {
  import opened Collections

  datatype Candidate = Candidate(
    ip: string, name: string, labels: set<string>, environments: set<string>,
    slots: nat, activeClients: int, load: real, lastJob: int)

  /** The builder and labels a client insists on, and the environments it can use, best first. */
  datatype Request = Request(builder: string, labels: seq<string>, usable: seq<string>)

  function Score(c: Candidate): real {
    var available := c.slots - c.activeClients;
    (if available <= 4 then available else 4) as real * (1.0 - c.load)
  }

  predicate Fits(r: Request, c: Candidate) {
    && (r.builder != "" ==> r.builder == c.ip || r.builder == c.name)
    && (forall l <- r.labels :: l in c.labels)
  }

  /** The first usable environment a builder has. */
  function FirstUsable(usable: seq<string>, has: set<string>): Option<string> {
    if usable == [] then None else if usable[0] in has then Some(usable[0]) else FirstUsable(usable[1..], has)
  }

  predicate Eligible(r: Request, c: Candidate) { Fits(r, c) && FirstUsable(r.usable, c.environments).Some? }

  predicate Better(c: Candidate, than: Candidate) {
    Score(c) > Score(than) || (Score(c) == Score(than) && c.lastJob < than.lastJob)
  }

  /** Position i holds the choice: eligible, nothing better anywhere, and nothing as good before it. */
  ghost predicate Best(r: Request, cs: seq<Candidate>, i: nat) {
    && i < |cs| && Eligible(r, cs[i])
    && forall j :: 0 <= j < |cs| && Eligible(r, cs[j]) ==> !Better(cs[j], cs[i]) && (j < i ==> Better(cs[i], cs[j]))
  }

  /** One of the two loops of the compile handler. */
  method PickFrom(r: Request, cs: seq<Candidate>) returns (builder: Option<nat>, env: Option<string>)
    ensures builder.Some? ==> Best(r, cs, builder.value) && env == FirstUsable(r.usable, cs[builder.value].environments)
    ensures builder.None? <==> forall c <- cs :: !Eligible(r, c)
  {
    builder, env := None, None;
    var bestScore := 0.0;
    for i := 0 to |cs|
      invariant builder.None? <==> forall c <- cs[..i] :: !Eligible(r, c)
      invariant builder.Some? ==>
          && Best(r, cs[..i], builder.value) && bestScore == Score(cs[builder.value])
          && env == FirstUsable(r.usable, cs[builder.value].environments)
    {
      assert cs[..i + 1] == cs[..i] + [cs[i]];
      var s := cs[i];
      var candidateEnv := FirstUsable(r.usable, s.environments);
      if Fits(r, s) && candidateEnv.Some? {
        var builderScore := Score(s);
        if builder.None? || builderScore > bestScore
          || (builderScore == bestScore && s.lastJob < cs[builder.value].lastJob) {
          bestScore, builder, env := builderScore, Some(i), candidateEnv;
        }
      }
    }
    assert cs[..|cs|] == cs;
  }

  /** A choice from a list, and whether it came from the holders of the cached object. */
  datatype Choice = NoBuilder | Cached(node: nat) | Any(builder: nat)

  /** Holders first; the other builders only when no holder qualifies. */
  method Choose(r: Request, holders: seq<Candidate>, all: seq<Candidate>) returns (choice: Choice)
    ensures choice.Cached? <==> exists c <- holders :: Eligible(r, c)
    ensures choice.NoBuilder? <==> forall c <- holders + all :: !Eligible(r, c)
    ensures choice.Cached? ==> Best(r, holders, choice.node)
    ensures choice.Any? ==> Best(r, all, choice.builder)
  {
    assert forall c :: c in holders + all <==> c in holders || c in all;
    var builder, env := PickFrom(r, holders);
    if builder.Some? {
      assert holders[builder.value] in holders;
      return Cached(builder.value);
    }
    builder, env := PickFrom(r, all);
    if builder.Some? {
      assert all[builder.value] in all;
      return Any(builder.value);
    }
    return NoBuilder;
  }

  // ---- what the choice means

  /** The builder is the one insisted on, if any, by address or name; it has every label; and it has an environment that
      can be used. */
  ghost predicate Qualifies(r: Request, c: Candidate) {
    && (|r.builder| == 0 || c.ip == r.builder || c.name == r.builder)
    && (forall i :: 0 <= i < |r.labels| ==> r.labels[i] in c.labels)
    && (exists i :: 0 <= i < |r.usable| && r.usable[i] in c.environments)
  }

  /** Free slots, of which no more than four count, scaled by what the load leaves. */
  ghost predicate Worth(c: Candidate, score: real) {
    && (c.activeClients + 4 <= c.slots ==> score == 4.0 * (1.0 - c.load))
    && (c.activeClients + 4 > c.slots ==> score == (c.slots as real - c.activeClients as real) * (1.0 - c.load))
  }

  lemma {:induction false} FirstUsableIs(usable: seq<string>, has: set<string>) returns (i: nat)
    ensures FirstUsable(usable, has).Some? <==> exists k :: 0 <= k < |usable| && usable[k] in has
    ensures FirstUsable(usable, has).Some? ==>
              && i < |usable| && FirstUsable(usable, has).value == usable[i] && usable[i] in has
              && forall k :: 0 <= k < i ==> usable[k] !in has
  {
    i := 0;
    if usable != [] && usable[0] !in has {
      i := FirstUsableIs(usable[1..], has);
      assert forall k :: 0 < k < |usable| ==> usable[k] == usable[1..][k - 1];
      assert forall k :: 0 <= k < |usable| - 1 ==> usable[1..][k] == usable[k + 1];
      i := i + 1;
    }
  }

  lemma EligibleIff(r: Request, c: Candidate)
    ensures Eligible(r, c) <==> Qualifies(r, c)
  {
    var i := FirstUsableIs(r.usable, c.environments);
    if Qualifies(r, c) {
      forall l <- r.labels ensures l in c.labels {
        var k :| 0 <= k < |r.labels| && r.labels[k] == l;
      }
    }
  }

  lemma ScoreIs(c: Candidate)
    ensures Worth(c, Score(c))
  {}

  /** The choice qualifies, no builder that does is worth more, among those worth as much it was given a job the longest
      ago, and of those it comes first. */
  lemma BestMeans(r: Request, cs: seq<Candidate>, i: nat, worth: seq<real>)
    requires |worth| == |cs| && forall j :: 0 <= j < |cs| ==> Worth(cs[j], worth[j])
    ensures Best(r, cs, i) <==>
            && i < |cs| && Qualifies(r, cs[i])
            && forall j :: 0 <= j < |cs| && Qualifies(r, cs[j]) ==>
                 || worth[i] > worth[j]
                 || (worth[i] == worth[j] && cs[i].lastJob < cs[j].lastJob)
                 || (worth[i] == worth[j] && cs[i].lastJob == cs[j].lastJob && i <= j)
  {
    forall j | 0 <= j < |cs| ensures Eligible(r, cs[j]) <==> Qualifies(r, cs[j]) { EligibleIff(r, cs[j]); }
    forall j | 0 <= j < |cs| ensures worth[j] == Score(cs[j]) { ScoreIs(cs[j]); }
  }
}
