/** Where a token comes from that a call hands out. */
module Provenance {
  import opened Prelude
  import opened Lease
  import opened LeaseSafety

  /** The token a call has made up its mind to store or hand out. */
  function Settles(pc: Pc): Option<string> {
    match pc
    case Updating(_, x) => Some(x.accessToken)
    case Updated(token, _) => Some(token)
    case Releasing(result) => if result.Ready? then Some(result.token) else None
    case Freed(result, _) => if result.Ready? then Some(result.token) else None
    case Done(result, _) => if result.Ready? then Some(result.token) else None
    case _ => None
  }

  /** The call read the token from the store and judged it sufficiently valid then. */
  ghost predicate JudgedGood(s: State, step: Step, o: string, token: string) {
    && step == Observe(o) && o in s.resolvers && s.resolvers[o].pc.Judging? && s.resolvers[o].pc.found.Some?
    && s.resolvers[o].pc.found.value.accessToken == token
    && Usable(s, s.resolvers[o], s.resolvers[o].pc.found.value)
  }

  ghost predicate Issued(step: Step, o: string, token: string) {
    step.Respond? && step.owner == o && step.reply.Tokens? && step.reply.access == token
  }

  ghost predicate Earned(states: seq<State>, steps: seq<Step>, i: nat, o: string, token: string)
    requires i <= |steps| < |states|
  {
    exists k | 0 <= k < i :: JudgedGood(states[k], steps[k], o, token) || Issued(steps[k], o, token)
  }

  lemma SettlingStep(s: State, step: Step, o: string, token: string)
    requires Enabled(s, step) && o in s.resolvers && o in Apply(s, step).resolvers
    requires Settles(Apply(s, step).resolvers[o].pc) == Some(token)
    ensures || Settles(s.resolvers[o].pc) == Some(token)
            || JudgedGood(s, step, o, token)
            || (s.resolvers[o].pc.Responded? && s.resolvers[o].pc.reply.Tokens?
                && s.resolvers[o].pc.reply.access == token)
  {
    match step {
      case Answer(q) => AnswerSettles(s, q);
      case Late(q, request) => LateFrame(s, q, request);
      case _ =>
    }
  }

  lemma AnswerSettles(s: State, o: string)
    requires Enabled(s, Answer(o))
    ensures var s' := Apply(s, Answer(o));
            && o in s'.resolvers && s'.resolvers == s.resolvers[o := s'.resolvers[o]]
            && (Settles(s'.resolvers[o].pc).Some? ==> Settles(s'.resolvers[o].pc) == Settles(s.resolvers[o].pc))
  {
    AnswerFrame(s, o);
  }

  lemma {:induction false} SettledIsEarned(states: seq<State>, steps: seq<Step>, i: nat, o: string, token: string)
    requires Run(states, steps) && i < |states| && o in states[i].resolvers
    requires Settles(states[i].resolvers[o].pc) == Some(token)
    ensures Earned(states, steps, i, o, token)
  {
    if i > 0 {
      var s, step := states[i - 1], steps[i - 1];
      if o in s.resolvers {
        SettlingStep(s, step, o, token);
        if Settles(s.resolvers[o].pc) == Some(token) {
          SettledIsEarned(states, steps, i - 1, o, token);
        } else if !JudgedGood(s, step, o, token) {
          RejectedByServer(states, steps, i - 1, o);
        }
      } else {
        Newcomer(s, step, o);
      }
    }
  }

  /**
   * Every token a call hands out it either read as sufficiently valid by its own clock, or got from the
   * token endpoint in this very call.
   */
  lemma ReadyIsEarned(states: seq<State>, steps: seq<Step>, i: nat, o: string)
    requires Run(states, steps) && i < |states| && o in states[i].resolvers
    requires states[i].resolvers[o].pc.Done? && states[i].resolvers[o].pc.result.Ready?
    ensures Earned(states, steps, i, o, states[i].resolvers[o].pc.result.token)
  {
    SettledIsEarned(states, steps, i, o, states[i].resolvers[o].pc.result.token);
  }
}
