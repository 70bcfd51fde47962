/** What a request to change an exclusion is answered, and why: the preparing and
    the finalizing step read off the rule they find. */
module ExclusionAnswers {
  import opened Options
  import opened ExclusionRules
  import opened ExclusionProtocol

  predicate Accessible(rule: Rule) {
    rule.active && rule.visible
  }

  /** The request reaches the rule: it is accessible and no acknowledged transition
      is recorded under the key. */
  predicate Reaches(s: State, a: Action)
    requires a.RequestPrepares? && a.r < |s.rules|
  {
    Accessible(s.rules[a.r]) && (a.r, a.key) !in s.bindings
  }

  lemma NotFoundIff(s: State, a: Action)
    requires a.RequestPrepares? && Enabled(s, a)
    ensures var pc := Apply(s, a).requests[a.q];
            pc == Answered(NotFound) <==> !s.rules[a.r].active || !s.rules[a.r].visible
  {
  }

  /** A key that was used answers again what it was answered, whatever is asked. */
  lemma ReplayIff(s: State, a: Action, id: Id, excluded: bool)
    requires a.RequestPrepares? && Enabled(s, a)
    ensures Apply(s, a).requests[a.q] == Answered(AcknowledgedAgain(id, excluded)) <==>
              && Accessible(s.rules[a.r]) && (a.r, a.key) in s.bindings
              && s.bindings[(a.r, a.key)].transition.id == id
              && s.bindings[(a.r, a.key)].transition.excluded == excluded
  {
  }

  /** A change conflicts when another key's change is under way, or when none is
      and the rule is not what the request expected. */
  lemma ConflictIff(s: State, a: Action)
    requires a.RequestPrepares? && Enabled(s, a)
    ensures var rule := s.rules[a.r];
            Apply(s, a).requests[a.q] == Answered(RejectedConflict) <==>
              && Reaches(s, a)
              && if rule.pending.Some? then rule.pending.value.key != a.key else rule.excluded != a.expected
  {
  }

  /** Nothing is to be done when the rule is as expected and as asked. */
  lemma NothingToDoIff(s: State, a: Action, e: bool)
    requires a.RequestPrepares? && Enabled(s, a)
    ensures var rule := s.rules[a.r];
            Apply(s, a).requests[a.q] == Answered(NothingToDo(e)) <==>
              Reaches(s, a) && rule.pending.None? && rule.excluded == a.expected == a.excluded == e
  {
  }

  /** A request whose own key has a change under way carries on with that one. */
  lemma ResumesIff(s: State, a: Action)
    requires a.RequestPrepares? && Enabled(s, a)
    ensures var rule, t := s.rules[a.r], Apply(s, a);
            Reaches(s, a) && rule.pending.Some? && rule.pending.value.key == a.key <==>
              rule.pending.Some? && t.requests[a.q] == Appending(Item(a.r, rule.pending.value.transition))
  {
    if s.rules[a.r].pending.Some? && Apply(s, a).requests[a.q].Appending? {
      assert Reaches(s, a);
    }
  }

  /** Otherwise a transition is issued: as asked, now, raising the cutoff to now
      exactly for an exclusion, and waiting under the request's key. */
  lemma IssuesIff(s: State, a: Action)
    requires a.RequestPrepares? && Enabled(s, a)
    ensures var rule, t := s.rules[a.r], Apply(s, a);
            t.next != s.next <==>
              Reaches(s, a) && rule.pending.None? && rule.excluded == a.expected && rule.excluded != a.excluded
    ensures var rule, t := s.rules[a.r], Apply(s, a);
            t.next != s.next ==>
              && t.next == s.next + 1 && t.requests[a.q].Appending?
              && var item := t.requests[a.q].item;
                 && item.r == a.r && item.transition.id == s.next && item.transition.excluded == a.excluded
                 && item.transition.at == s.now
                 && (!a.excluded ==> item.transition.cutoff == rule.cutoff)
                 && (a.excluded ==> item.transition.cutoff.Some? && s.now <= item.transition.cutoff.value
                                    && (item.transition.cutoff == Some(s.now)
                                        || (item.transition.cutoff == rule.cutoff)))
                 && t.issued == s.issued[s.next := item]
                 && t.rules == s.rules[a.r := rule.(pending := Some(Pending(item.transition, a.key)))]
    ensures var t := Apply(s, a);
            t.next == s.next ==> t.rules == s.rules && t.issued == s.issued
  {
  }

  /** Preparing writes neither the journal nor a binding, and no other request. */
  lemma PreparingOnlyPrepares(s: State, a: Action)
    requires a.RequestPrepares? && Enabled(s, a)
    ensures var t := Apply(s, a);
            && t.journal == s.journal && t.bindings == s.bindings && t.now == s.now && t.passes == s.passes
            && t.requests.Keys == s.requests.Keys + {a.q} && t.asked == s.asked[a.q := (a.r, a.key)]
            && forall q :: q in s.requests ==> t.requests[q] == s.requests[q]
  {
  }

  /** Finalizing acknowledges exactly when the transition still waits or is the last
      one the rule took, and the recipient is accessible. */
  lemma AcknowledgesIff(s: State, a: Action, id: Id, e: bool)
    requires a.RequestFinalizes? && Enabled(s, a) && s.requests[a.q].item.r < |s.rules|
    ensures var item, rule := s.requests[a.q].item, s.rules[s.requests[a.q].item.r];
            Apply(s, a).requests[a.q] == Answered(Acknowledged(id, e)) <==>
              && Accessible(rule) && item.transition.id == id
              && if rule.pending.Some? && rule.pending.value.transition.id == id
                 then rule.pending.value.transition.excluded == e
                 else rule.last == Some(id) && rule.excluded == e
    ensures Apply(s, a).requests[a.q].Answered?
            && (!Apply(s, a).requests[a.q].answer.Acknowledged? ==> Apply(s, a).requests[a.q].answer == NotFound)
  {
  }

  /** What waited then rules: its state, time and id, the greater of both cutoffs,
      and a binding for ninety days unless the key has one. */
  lemma FinalizingAdopts(s: State, a: Action)
    requires a.RequestFinalizes? && Enabled(s, a) && s.requests[a.q].item.r < |s.rules|
    ensures var r := s.requests[a.q].item.r;
            var rule, u := s.rules[r], Apply(s, a);
            if Accessible(rule) && rule.pending.Some? && rule.pending.value.transition.id == s.requests[a.q].item.transition.id then
              var w, k := rule.pending.value.transition, (r, rule.pending.value.key);
              && |u.rules| == |s.rules| && (forall p :: 0 <= p < |s.rules| && p != r ==> u.rules[p] == s.rules[p])
              && u.rules[r].excluded == w.excluded && u.rules[r].effectiveAt == Some(w.at) && u.rules[r].last == Some(w.id)
              && u.rules[r].pending.None? && u.rules[r].visible && u.rules[r].active
              && u.rules[r].cutoff == (if rule.cutoff.None? || (w.cutoff.Some? && rule.cutoff.value <= w.cutoff.value)
                                       then w.cutoff else rule.cutoff)
              && u.bindings == if k in s.bindings then s.bindings else s.bindings[k := Binding(w, a.observedAt + 90 * 86_400)]
            else u.rules == s.rules && u.bindings == s.bindings
    ensures Apply(s, a).journal == s.journal && Apply(s, a).next == s.next && Apply(s, a).issued == s.issued
  {
  }

  /** In a run, what finalizing acknowledges is what was appended. */
  lemma AcknowledgesAsAppended(start: State, trace: seq<Action>, q: Request, observedAt: Time)
    requires Initial(start) && IsRun(start, trace)
    requires Enabled(After(start, trace), RequestFinalizes(q, observedAt))
    ensures var s := After(start, trace);
            var item, pc := s.requests[q].item, Apply(s, RequestFinalizes(q, observedAt)).requests[q];
            pc == Answered(NotFound) || pc == Answered(Acknowledged(item.transition.id, item.transition.excluded))
  {
    var s, a := After(start, trace), RequestFinalizes(q, observedAt);
    InitialInv(start);
    RunInv(start, trace);
    RunInvStep(s, a);
    assert RequestInv(s, s.requests[q]);
    assert RequestInv(Apply(s, a), Apply(s, a).requests[q]);
    JournalKept(s, a);
  }

  lemma RunInvStep(s: State, a: Action)
    requires Inv(s) && Enabled(s, a)
    ensures Inv(Apply(s, a))
  {
    hide Inv, Apply, Enabled;
    OneAction(s, a);
    RunInv(s, [a]);
  }

  lemma JournalKept(s: State, a: Action)
    requires a.RequestFinalizes? && Enabled(s, a)
    ensures Apply(s, a).journal == s.journal
    ensures var pc := Apply(s, a).requests[a.q];
            pc == Answered(NotFound) || (pc.Answered? && pc.answer.Acknowledged? && pc.answer.id == s.requests[a.q].item.transition.id)
  {
  }
}
