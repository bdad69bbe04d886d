/** The registry that swaps whole snapshots, one call at a time and under any interleaving. */
module Registry {
  import opened Prelude
  import opened Policy
  import opened Snapshots
  import opened Resolution
  import Matching

  /** No parameter of any route lacks its constraint. */
  ghost predicate AllConstrained(s: Snapshot) {
    forall k | k in s.routes :: Constrained(s.routes[k].upstreamPath, s.routes[k].pathParameters)
  }

  class ResourceRoutePolicyRegistry {
    var active: Snapshot

    ghost predicate Valid()
      reads this
    {
      ValidSnapshot(active)
    }

    constructor (snapshot: Snapshot)
      requires ValidSnapshot(snapshot)
      ensures Valid() && active == snapshot
    {
      active := snapshot;
    }

    method Resolve(id: string, verb: string, ps: Pairs, qs: Pairs) returns (r: Result<Resolved, PolicyError>)
      requires Valid()
      ensures AllConstrained(active) && r == Resolution.Resolve(active, id, verb, ps, qs)
      ensures r.Ok? <==> Resolvable(active, id, verb, ps, qs)
      ensures r.Ok? ==>
        Matching.Binds(active.routes[id].upstreamPath, AsMap(ps))
        && var route := active.routes[id];
           r.value == Resolved(id, verb, route.origin, Target(route, AsMap(ps), AsMap(qs)),
                               route.requestHeaders, route.responseHeaders)
    {
      ResolveExact(active, id, verb, ps, qs);
      r := ResolveRoute(active, id, verb, ps, qs);
    }

    /** Replaces the active snapshot by a fully validated one, or leaves everything as it was. */
    method ActivateCandidate(version: string, ds: seq<Definition>) returns (r: Result<string, PolicyError>)
      requires Valid()
      modifies this
      ensures Valid()
      ensures r.Ok? <==> Compiles(version, ds)
      ensures r.Ok? ==> Represents(active, version, ds) && r.value == active.preimage
      ensures r.Err? ==> active == old(active) && Compile(version, ds) == Err(r.error)
    {
      CompileExact(version, ds);
      var candidate := TryNew(version, ds);
      if candidate.Err? {
        return Err(candidate.error);
      }
      CompileValid(version, ds);
      active := candidate.value;
      return Ok(active.preimage);
    }
  }

  // ---- interleavings --------------------------------------------------------------

  datatype Request = Request(id: string, verb: string, ps: Pairs, qs: Pairs)

  /** A call in progress. Numbers are positions in the history of active snapshots. */
  datatype Call =
    | Resolving(request: Request, since: nat)
    | Reading(request: Request, since: nat, at: nat, snapshot: Snapshot)
    | Answered(request: Request, since: nat, at: nat, until: nat, answer: Result<Resolved, PolicyError>)
    | Activating(version: string, ds: seq<Definition>)
    | Approved(candidate: Snapshot)
    | Activated(at: nat)
    | Refused

  datatype State = State(active: Snapshot, calls: map<nat, Call>, history: seq<Snapshot>)

  datatype Step =
    | BeginResolve(call: nat, request: Request)
    | TakeSnapshot(call: nat)
    | Answer(call: nat)
    | BeginActivate(call: nat, version: string, ds: seq<Definition>)
    | ValidateCandidate(call: nat)
    | Swap(call: nat)

  ghost predicate Init(s: State) {
    ValidSnapshot(s.active) && s.calls == map[] && s.history == [s.active]
  }

  ghost predicate Enabled(s: State, step: Step) {
    s.history != [] &&
    match step
    case BeginResolve(c, _) => c !in s.calls
    case BeginActivate(c, _, _) => c !in s.calls
    case TakeSnapshot(c) => c in s.calls && s.calls[c].Resolving?
    case Answer(c) =>
      && c in s.calls && s.calls[c].Reading?
      && forall k | k in s.calls[c].snapshot.routes ::
           Constrained(s.calls[c].snapshot.routes[k].upstreamPath, s.calls[c].snapshot.routes[k].pathParameters)
    case ValidateCandidate(c) => c in s.calls && s.calls[c].Activating?
    case Swap(c) => c in s.calls && s.calls[c].Approved?
  }

  ghost function Apply(s: State, step: Step): State
    requires Enabled(s, step)
  {
    match step
    case BeginResolve(c, request) =>
      s.(calls := s.calls[c := Resolving(request, |s.history| - 1)])
    case BeginActivate(c, version, ds) => s.(calls := s.calls[c := Activating(version, ds)])
    case TakeSnapshot(c) =>
      s.(calls := s.calls[c := Reading(s.calls[c].request, s.calls[c].since, |s.history| - 1, s.active)])
    case Answer(c) =>
      var call := s.calls[c];
      var q := call.request;
      s.(calls := s.calls[c := Answered(q, call.since, call.at, |s.history| - 1,
                                        Resolve(call.snapshot, q.id, q.verb, q.ps, q.qs))])
    case ValidateCandidate(c) =>
      var r := Compile(s.calls[c].version, s.calls[c].ds);
      s.(calls := s.calls[c := if r.Ok? then Approved(r.value) else Refused])
    case Swap(c) =>
      State(s.calls[c].candidate, s.calls[c := Activated(|s.history|)], s.history + [s.calls[c].candidate])
  }

  ghost predicate CallOk(history: seq<Snapshot>, c: Call) {
    match c
    case Resolving(_, since) => since < |history|
    case Reading(_, since, at, snapshot) => since <= at < |history| && snapshot == history[at]
    case Answered(q, since, at, until, answer) =>
      && since <= at <= until < |history|
      && AllConstrained(history[at])
      && answer == Resolve(history[at], q.id, q.verb, q.ps, q.qs)
    case Approved(candidate) => ValidSnapshot(candidate)
    case Activated(at) => at < |history|
    case Activating(_, _) => true
    case Refused => true
  }

  ghost predicate AllSnapshotsValid(history: seq<Snapshot>) {
    history == [] || (ValidSnapshot(history[|history| - 1]) && AllSnapshotsValid(history[..|history| - 1]))
  }

  lemma {:induction false} HistoryEntryValid(history: seq<Snapshot>, i: nat)
    requires AllSnapshotsValid(history) && i < |history|
    ensures ValidSnapshot(history[i])
  {
    if i < |history| - 1 {
      HistoryEntryValid(history[..|history| - 1], i);
    }
  }

  ghost predicate CallsOk(s: State) {
    forall c | c in s.calls :: CallOk(s.history, s.calls[c])
  }

  ghost predicate Inv(s: State) {
    && s.history != [] && s.history[|s.history| - 1] == s.active
    && AllSnapshotsValid(s.history)
    && CallsOk(s)
  }

  lemma CallOkLater(history: seq<Snapshot>, next: Snapshot, c: Call)
    requires CallOk(history, c)
    ensures CallOk(history + [next], c)
  {
  }

  lemma ReplacingCall(s: State, s': State, c: nat, call: Call)
    requires CallsOk(s) && s' == s.(calls := s.calls[c := call]) && CallOk(s.history, call)
    ensures CallsOk(s')
  {
  }

  lemma SwapKeepsInv(s: State, c: nat)
    requires Inv(s) && Enabled(s, Swap(c))
    ensures Inv(Apply(s, Swap(c)))
  {
    var s' := Apply(s, Swap(c));
    assert CallOk(s.history, s.calls[c]);
    assert s'.history[..|s'.history| - 1] == s.history;
    forall d | d in s'.calls ensures CallOk(s'.history, s'.calls[d]) {
      if d != c {
        CallOkLater(s.history, s'.active, s.calls[d]);
      }
    }
  }

  lemma StepKeepsInv(s: State, step: Step)
    requires Inv(s) && Enabled(s, step)
    ensures Inv(Apply(s, step))
  {
    if step.Swap? {
      SwapKeepsInv(s, step.call);
    } else {
      var call := Apply(s, step).calls[step.call];
      assert CallOk(s.history, call) by {
        NewCallOk(s, step);
      }
      ReplacingCall(s, Apply(s, step), step.call, call);
    }
  }

  lemma NewCallOk(s: State, step: Step)
    requires Inv(s) && Enabled(s, step) && !step.Swap?
    ensures CallOk(s.history, Apply(s, step).calls[step.call])
  {
    if step.call in s.calls {
      assert CallOk(s.history, s.calls[step.call]);
    }
    if step.ValidateCandidate? && Compile(s.calls[step.call].version, s.calls[step.call].ds).Ok? {
      CompileValid(s.calls[step.call].version, s.calls[step.call].ds);
    }
  }

  /** One step of a run. */
  ghost predicate Follows(s: State, step: Step, s': State) {
    Enabled(s, step) && s' == Apply(s, step)
  }

  ghost predicate Run(states: seq<State>, steps: seq<Step>) {
    && |states| == |steps| + 1
    && Init(states[0])
    && forall i {:trigger steps[i]} | 0 <= i < |steps| :: Follows(states[i], steps[i], states[i + 1])
  }

  lemma InitInv(s: State)
    requires Init(s)
    ensures Inv(s)
  {
    assert s.history[..0] == [];
  }

  lemma NextKeepsInv(s: State, step: Step, s': State)
    requires Inv(s) && Follows(s, step, s')
    ensures Inv(s')
  {
    StepKeepsInv(s, step);
  }

  lemma RunInv(states: seq<State>, steps: seq<Step>, i: nat)
    requires Run(states, steps) && i < |states|
    ensures Inv(states[i])
  {
    InitInv(states[0]);
    forall s, step, s' | Inv(s) && Follows(s, step, s') ensures Inv(s') {
      NextKeepsInv(s, step, s');
    }
    KeptThroughout(Inv, Follows, states, steps, i);
  }

  /**
   * In every interleaving of activations and resolutions, an answer is the answer of one complete, valid
   * snapshot that was the active one at some moment between the call's start and its end.
   */
  lemma AnswersComeFromOneSnapshot(states: seq<State>, steps: seq<Step>, c: nat)
    requires Run(states, steps)
    requires c in states[|steps|].calls && states[|steps|].calls[c].Answered?
    ensures var call, history := states[|steps|].calls[c], states[|steps|].history;
      && call.since <= call.at <= call.until < |history|
      && ValidSnapshot(history[call.at]) && AllConstrained(history[call.at])
      && call.answer == Resolve(history[call.at], call.request.id, call.request.verb, call.request.ps, call.request.qs)
  {
    RunInv(states, steps, |steps|);
    assert CallOk(states[|steps|].history, states[|steps|].calls[c]);
    HistoryEntryValid(states[|steps|].history, states[|steps|].calls[c].at);
  }

  /** A call that took its snapshot can always answer: the lookup the source expects to succeed does. */
  lemma AnswersNeverStick(states: seq<State>, steps: seq<Step>, i: nat, c: nat)
    requires Run(states, steps) && i < |states| && c in states[i].calls && states[i].calls[c].Reading?
    ensures Enabled(states[i], Answer(c))
  {
    RunInv(states, steps, i);
    var s := states[i];
    assert CallOk(s.history, s.calls[c]);
    HistoryEntryValid(s.history, s.calls[c].at);
    SnapshotConstrained(s.calls[c].snapshot);
  }

  /** No step but a swap of an approved candidate changes what is active. */
  lemma OnlySwapsActivate(s: State, step: Step)
    requires Inv(s) && Enabled(s, step)
    ensures Apply(s, step).active != s.active ==> step.Swap? && Apply(s, step).active == s.calls[step.call].candidate
    ensures s.history <= Apply(s, step).history
  {
  }

  /**
   * An activation whose candidate compiles takes effect with its swap: what is active then represents the
   * candidate, and a resolution that takes its snapshot afterwards is answered by it. One that does not compile
   * never gets as far as the swap.
   */
  lemma ActivationTakesEffect(s: State, c: nat, version: string, ds: seq<Definition>, d: nat, q: Request)
    requires Inv(s) && Enabled(s, BeginActivate(c, version, ds)) && d !in s.calls && d != c
    ensures var begun := Apply(s, BeginActivate(c, version, ds));
            Enabled(begun, ValidateCandidate(c)) &&
            var validated := Apply(begun, ValidateCandidate(c));
            && validated.active == s.active
            && (Enabled(validated, Swap(c)) <==> Compiles(version, ds))
            && (Compiles(version, ds) ==>
                  var swapped := Apply(validated, Swap(c));
                  Represents(swapped.active, version, ds) && AnsweredBy(swapped, d, q))
  {
    CompileExact(version, ds);
    if Compiles(version, ds) {
      CompileValid(version, ds);
      ResolvesAtOnce(Apply(Apply(Apply(s, BeginActivate(c, version, ds)), ValidateCandidate(c)), Swap(c)), d, q);
    }
  }

  lemma ResolvesAtOnce(s: State, d: nat, q: Request)
    requires ValidSnapshot(s.active) && s.history != [] && d !in s.calls
    ensures AnsweredBy(s, d, q)
  {
    SnapshotConstrained(s.active);
  }

  /** A resolution begun now, with nothing in between, is answered by the active snapshot. */
  ghost predicate AnsweredBy(s: State, d: nat, q: Request) {
    Enabled(s, BeginResolve(d, q)) &&
    var begun := Apply(s, BeginResolve(d, q));
    Enabled(begun, TakeSnapshot(d)) &&
    var taken := Apply(begun, TakeSnapshot(d));
    && Enabled(taken, Answer(d)) && AllConstrained(s.active)
    && var call := Apply(taken, Answer(d)).calls[d];
       call.Answered? && call.answer == Resolution.Resolve(s.active, q.id, q.verb, q.ps, q.qs)
  }
}
