/** `setExclusion` and the recovery pass as code on the shared state. Every call
    is one action of the protocol; before each call of a request, other requests
    and passes may run. */
module ExclusionWorkers {
  import opened Options
  import opened ExclusionRules
  import opened ExclusionProtocol
  import opened ExclusionRecovery
  import opened ExclusionAnswers

  predicate NotBy(actions: seq<Action>, q: Request) {
    forall i :: 0 <= i < |actions| ==> !By(actions[i], q)
  }

  lemma {:induction false} OthersLeaveAlone(s: State, actions: seq<Action>, q: Request)
    requires IsRun(s, actions) && NotBy(actions, q)
    ensures var t := After(s, actions);
            s.now <= t.now && (q in t.requests <==> q in s.requests) && (q in s.requests ==> t.requests[q] == s.requests[q])
    decreases |actions|
  {
    hide Apply, Enabled, By;
    if actions != [] {
      OtherLeavesAlone(s, actions[0], q);
      assert forall i :: 0 <= i < |actions| - 1 ==> actions[1..][i] == actions[i + 1];
      OthersLeaveAlone(Apply(s, actions[0]), actions[1..], q);
    }
  }

  lemma EmptyWork(rules: seq<Rule>, journal: map<Id, Item>)
    ensures FinalizeEach(rules, []) == rules && AppendEach(journal, []) == journal
  {
  }

  /** The answer to a change, by the rule and the bindings it found: which requests
      are refused, which have nothing to do, and what the others acknowledge. */
  predicate AnswersAs(s: State, r: Recipient, key: IdempotencyKey, excluded: bool, expected: bool, answer: Answer)
    requires r < |s.rules|
  {
    var rule := s.rules[r];
    if !rule.active || !rule.visible then answer == NotFound
    else if (r, key) in s.bindings then
      answer == AcknowledgedAgain(s.bindings[(r, key)].transition.id, s.bindings[(r, key)].transition.excluded)
    else if rule.pending.Some? && rule.pending.value.key != key then answer == RejectedConflict
    else if rule.pending.Some? then
      answer in {NotFound, Acknowledged(rule.pending.value.transition.id, rule.pending.value.transition.excluded)}
    else if expected != rule.excluded then answer == RejectedConflict
    else if excluded == expected then answer == NothingToDo(excluded)
    else answer in {NotFound, Acknowledged(s.next, excluded)}
  }

  /** What the preparing step settles of the answer. */
  lemma AnsweredAtOnce(s: State, a: Action)
    requires a.RequestPrepares? && Enabled(s, a)
    ensures var pc := Apply(s, a).requests[a.q];
            match pc
            case Answered(answer) => AnswersAs(s, a.r, a.key, a.excluded, a.expected, answer)
            case Appending(item) =>
              && AnswersAs(s, a.r, a.key, a.excluded, a.expected, NotFound)
              && AnswersAs(s, a.r, a.key, a.excluded, a.expected, Acknowledged(item.transition.id, item.transition.excluded))
            case Finalizing(_) => false
  {
  }

  class World {
    var s: State
    ghost var start: State
    ghost var trace: seq<Action>

    ghost predicate Valid()
      reads this
    {
      Initial(start) && IsRun(start, trace) && After(start, trace) == s
    }

    constructor (initial: State)
      requires Initial(initial)
      ensures Valid() && s == initial && start == initial && trace == []
    {
      s, start, trace := initial, initial, [];
    }

    method Perform(a: Action)
      requires Valid() && Enabled(s, a)
      modifies this
      ensures Valid() && s == Apply(old(s), a)
      ensures start == old(start) && trace == old(trace) + [a]
    {
      hide Apply, Enabled, Initial;
      assert [a][1..] == [];
      assert IsRun(s, [a]) && After(s, [a]) == Apply(s, a);
      RunConcat(start, trace, [a]);
      trace := trace + [a];
      s := Apply(s, a);
    }

    method Interfere(q: Request)
      requires Valid()
      modifies this
      ensures Valid() && start == old(start) && old(trace) <= trace && old(s).now <= s.now
      ensures q in s.requests <==> q in old(s).requests
      ensures q in s.requests ==> s.requests[q] == old(s).requests[q]
    {
      hide Apply, Enabled, Initial;
      var others: seq<Action> := *;
      if IsRun(s, others) && NotBy(others, q) {
        OthersLeaveAlone(s, others, q);
        RunConcat(start, trace, others);
        trace := trace + others;
        s := After(s, others);
      }
    }

    /** `setExclusion`. Whatever runs in between, an acknowledgement leaves with
        its journal entry written and no older change in force. */
    method SetExclusion(q: Request, r: Recipient, key: IdempotencyKey, excluded: bool, expected: bool)
      returns (answer: Answer)
      requires Valid() && q !in s.requests && r < |s.rules|
      modifies this
      ensures Valid() && start == old(start) && old(trace) <= trace
      ensures q in s.requests && s.requests[q] == Answered(answer)
      ensures AnswerInv(s, answer) && !answer.JournalFailure?
      ensures AnswersAs(old(s), r, key, excluded, expected, answer)
    {
      hide Initial, AnswerInv, IsRun, After, InForce, Reaches, AnswersAs, Finalized, FinalizeAnswer;
      var asked := RequestPrepares(q, r, key, excluded, expected);
      AnsweredAtOnce(s, asked);
      Perform(asked);
      if s.requests[q].Appending? {
        Interfere(q);
        Perform(RequestAppends(q));
        if s.requests[q].Finalizing? {
          var observedAt := s.now;
          Interfere(q);
          AcknowledgesAsAppended(start, trace, q, observedAt);
          Perform(RequestFinalizes(q, observedAt));
        }
      }
      answer := s.requests[q].answer;
      AnswerIsJournaled(start, trace, q);
    }

    /** `recoverPreparedRecipientTransitions`, run without interruption. The loop
        counts a transition as recovered whatever finalize returned. */
    method RecoverPrepared(p: Pass, observedAt: Time) returns (recoveredCount: nat)
      requires Valid() && p !in s.passes && observedAt <= s.now
      modifies this
      ensures Valid() && start == old(start) && old(trace) <= trace
      ensures s.rules == PassRules(old(s).rules, observedAt)
      ensures s.journal == AppendEach(old(s).journal, Listing(old(s).rules, observedAt))
      ensures recoveredCount == |Listing(old(s).rules, observedAt)|
      ensures NonePending(s.rules) <==>
                && |Queue(old(s).rules, observedAt)| <= LIMIT
                && forall r :: 0 <= r < |old(s).rules| && old(s).rules[r].pending.Some? ==>
                     Eligible(old(s).rules[r], observedAt) && old(s).rules[r].active
    {
      hide Initial, IsRun, After, RuleInv, RequestInv, InForce, LogInv, Listing, FinalizeEach, AppendEach, NonePending, Eligible;
      ghost var before := s;
      var pending := Listing(s.rules, observedAt);
      InitialInv(start);
      RunInv(start, trace);
      InvUniqueIds(s);
      PassCompletesIff(s.rules, observedAt);
      ListingIsPending(s, observedAt);
      Perform(PassLists(p, pending));
      recoveredCount := 0;
      while recoveredCount < |pending|
        invariant recoveredCount <= |pending|
        invariant Valid() && start == old(start) && old(trace) <= trace && observedAt <= s.now
        invariant p in s.passes && s.passes[p] == PassPc(pending[recoveredCount..], false)
        invariant FinalizeEach(s.rules, pending[recoveredCount..]) == PassRules(before.rules, observedAt)
        invariant AppendEach(s.journal, pending[recoveredCount..]) == AppendEach(before.journal, pending)
      {
        Recover(p, pending[recoveredCount..], observedAt);
        recoveredCount := recoveredCount + 1;
      }
      assert pending[recoveredCount..] == [];
      EmptyWork(s.rules, s.journal);
    }

    /** One turn of the loop: append, then finalize. */
    method Recover(p: Pass, todo: seq<Item>, observedAt: Time)
      requires Valid() && observedAt <= s.now && p in s.passes && todo != [] && s.passes[p] == PassPc(todo, false)
      modifies this
      ensures Valid() && start == old(start) && old(trace) <= trace
      ensures p in s.passes && s.passes[p] == PassPc(todo[1..], false) && s.now == old(s).now
      ensures FinalizeEach(s.rules, todo[1..]) == FinalizeEach(old(s).rules, todo)
      ensures AppendEach(s.journal, todo[1..]) == AppendEach(old(s).journal, todo)
    {
      hide Initial, RuleInv, RequestInv, InForce, IsRun, After, CutoffJournaled;
      InitialInv(start);
      RunInv(start, trace);
      assert PassInv(s, s.passes[p]);
      AppendSucceeds(s, todo[0]);
      Perform(PassAppends(p));
      Perform(PassFinalizes(p, observedAt));
      ghost var item, rules := todo[0], old(s).rules;
      assert s.rules == if item.r < |rules| then rules[item.r := Finalize(rules[item.r], item.transition.id).0] else rules;
    }

    lemma ListingIsPending(s: State, observedAt: Time)
      requires Inv(s)
      ensures forall i :: 0 <= i < |Listing(s.rules, observedAt)| ==> IsPending(s, Listing(s.rules, observedAt)[i])
    {
      InvUniqueIds(s);
      QueueIsSorted(s.rules, observedAt);
      forall i | 0 <= i < |Listing(s.rules, observedAt)| ensures IsPending(s, Listing(s.rules, observedAt)[i]) {
        assert Listing(s.rules, observedAt)[i] in Queue(s.rules, observedAt);
      }
    }
  }
}
