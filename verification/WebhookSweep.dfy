/** The checkpointed sweep over the stored webhook objects: what one round
    publishes, and what any sequence of rounds, crashed ones included, covers. */
module WebhookSweep {
  import opened Options

  type Key = nat
  type Message = nat
  type Time = int

  const GRACE_MILLISECONDS: int := 60000
  const PAGE: nat := 100

  /** `message` is None when the key or the metadata is not that of an event,
      `uploadedAt` when the time does not parse. */
  datatype Object = Object(message: Option<Message>, uploadedAt: Option<Time>)

  datatype Status = Claimed | Conflicting | SourceUnavailable | Unclaimed

  // ----- one page -----

  predicate IsInvalid(o: Object) {
    o.message.None? || o.uploadedAt.None?
  }

  predicate IsCandidate(o: Object, observedAt: Time) {
    !IsInvalid(o) && o.uploadedAt.value <= observedAt - GRACE_MILLISECONDS
  }

  predicate IsTooRecent(o: Object, observedAt: Time) {
    !IsInvalid(o) && o.uploadedAt.value > observedAt - GRACE_MILLISECONDS
  }

  function Candidates(objects: seq<Object>, observedAt: Time): seq<Message> {
    if objects == [] then []
    else (if IsCandidate(objects[0], observedAt) then [objects[0].message.value] else [])
         + Candidates(objects[1..], observedAt)
  }

  function Count(objects: seq<Object>, counted: Object -> bool): (n: nat)
    ensures n <= |objects|
  {
    if objects == [] then 0 else (if counted(objects[0]) then 1 else 0) + Count(objects[1..], counted)
  }

  lemma NextObject(objects: seq<Object>, i: nat, observedAt: Time)
    requires i < |objects|
    ensures Candidates(objects[i..], observedAt) ==
            (if IsCandidate(objects[i], observedAt) then [objects[i].message.value] else [])
            + Candidates(objects[i + 1..], observedAt)
  {
    assert objects[i..][1..] == objects[i + 1..];
  }

  lemma NothingLeft(observedAt: Time, counted: Object -> bool)
    ensures Candidates([], observedAt) == [] && Count([], counted) == 0
  {
  }

  lemma CountNext(objects: seq<Object>, i: nat, counted: Object -> bool)
    requires i < |objects|
    ensures Count(objects[i..], counted) == (if counted(objects[i]) then 1 else 0) + Count(objects[i + 1..], counted)
  {
    assert objects[i..][1..] == objects[i + 1..];
  }

  lemma {:induction false} CandidatesAt(objects: seq<Object>, observedAt: Time, m: Message)
    ensures m in Candidates(objects, observedAt) <==>
              exists i :: 0 <= i < |objects| && IsCandidate(objects[i], observedAt) && objects[i].message.value == m
  {
    if objects != [] {
      CandidatesAt(objects[1..], observedAt, m);
      if i :| 0 <= i < |objects| && IsCandidate(objects[i], observedAt) && objects[i].message.value == m {
        if i > 0 { assert objects[1..][i - 1] == objects[i]; }
      }
      if j :| 0 <= j < |objects[1..]| && IsCandidate(objects[1..][j], observedAt) && objects[1..][j].message.value == m {
        assert objects[j + 1] == objects[1..][j];
      }
    }
  }

  /** The unclaimed candidates in order; None when one of them conflicts. */
  function FilterUnclaimed(candidates: seq<Message>, status: Message -> Status): (unclaimed: Option<seq<Message>>)
    ensures unclaimed.None? <==> exists m :: m in candidates && status(m) == Conflicting
    ensures unclaimed.Some? ==> forall m :: m in unclaimed.value <==> m in candidates && status(m) == Unclaimed
  {
    if candidates == [] then Some([])
    else if status(candidates[0]) == Conflicting then assert candidates[0] in candidates; None
    else
      var rest := FilterUnclaimed(candidates[1..], status);
      if rest.None? || status(candidates[0]) != Unclaimed then rest else Some([candidates[0]] + rest.value)
  }

  /** Both lists keep the order of the page: of two parts of it, first what the first
      part yields, then what the second does; and each message counts once. */
  lemma {:induction false} CandidatesInOrder(a: seq<Object>, b: seq<Object>, observedAt: Time)
    ensures Candidates(a + b, observedAt) == Candidates(a, observedAt) + Candidates(b, observedAt)
  {
    hide IsCandidate;
    if a == [] {
      assert a + b == b;
    } else {
      assert (a + b)[0] == a[0] && (a + b)[1..] == a[1..] + b;
      CandidatesInOrder(a[1..], b, observedAt);
      NextObject(a, 0, observedAt);
      NextObject(a + b, 0, observedAt);
      assert a[0..] == a && (a + b)[0..] == a + b;
    }
  }

  lemma {:induction false} UnclaimedInOrder(a: seq<Message>, b: seq<Message>, status: Message -> Status)
    ensures var x, y := FilterUnclaimed(a, status), FilterUnclaimed(b, status);
            FilterUnclaimed(a + b, status) == if x.None? || y.None? then None else Some(x.value + y.value)
  {
    if a == [] {
      assert a + b == b;
      assert FilterUnclaimed(b, status).Some? ==> [] + FilterUnclaimed(b, status).value == FilterUnclaimed(b, status).value;
    } else {
      assert (a + b)[0] == a[0] && (a + b)[1..] == a[1..] + b;
      UnclaimedInOrder(a[1..], b, status);
      var x, y := FilterUnclaimed(a[1..], status), FilterUnclaimed(b, status);
      if x.Some? && y.Some? { assert [a[0]] + (x.value + y.value) == [a[0]] + x.value + y.value; }
    }
  }

  lemma OneUnclaimed(m: Message, status: Message -> Status)
    ensures FilterUnclaimed([m], status) ==
            match status(m) case Conflicting => None case Unclaimed => Some([m]) case _ => Some([])
  {
    assert [m][1..] == [] && FilterUnclaimed([], status) == Some([]);
    assert [m] + [] == [m];
  }

  // ----- rounds -----

  predicate Beyond(cursor: Option<Key>, key: Key) {
    cursor.None? || cursor.value < key
  }

  /** A listing returns a run of keys beyond the cursor; unless it reached the
      end, the new cursor stands at its last key. */
  ghost predicate IsPage(bucket: map<Key, Object>, cursor: Option<Key>, page: seq<Key>, next: Option<Key>) {
    && |page| <= PAGE
    && (forall i, j :: 0 <= i < j < |page| ==> page[i] < page[j])
    && (next.Some? ==> page != [] && page[|page| - 1] == next.value)
    && (forall k :: k in page <==> k in bucket && Beyond(cursor, k) && (next.None? || k <= next.value))
  }

  /** One round: the bucket and the claims as it finds them. With `fault` n it
      fails at its publish number n, or at saving when there are no more. */
  datatype Round = Round(bucket: map<Key, Object>, page: seq<Key>, next: Option<Key>, observedAt: Time,
                         status: Message -> Status, fault: Option<nat>)

  datatype State = State(checkpoint: Option<Key>, published: seq<Message>)

  /** A cursor the store no longer accepts is replaced by the start of the bucket. */
  ghost predicate IsRound(checkpoint: Option<Key>, round: Round) {
    IsPage(round.bucket, checkpoint, round.page, round.next) || IsPage(round.bucket, None, round.page, round.next)
  }

  function Objects(bucket: map<Key, Object>, page: seq<Key>): (objects: seq<Object>)
    requires forall k :: k in page ==> k in bucket
    ensures |objects| == |page| && forall i :: 0 <= i < |page| ==> objects[i] == bucket[page[i]]
  {
    seq(|page|, i requires 0 <= i < |page| => bucket[page[i]])
  }

  function Found(round: Round): Option<seq<Message>>
    requires forall k :: k in round.page ==> k in round.bucket
  {
    FilterUnclaimed(Candidates(Objects(round.bucket, round.page), round.observedAt), round.status)
  }

  function Sent(round: Round): seq<Message>
    requires forall k :: k in round.page ==> k in round.bucket
  {
    var found := Found(round);
    if found.None? then []
    else if round.fault.None? || |found.value| <= round.fault.value then found.value
    else found.value[..round.fault.value]
  }

  predicate Completes(round: Round)
    requires forall k :: k in round.page ==> k in round.bucket
  {
    Found(round).Some? && round.fault.None?
  }

  ghost function Step(s: State, round: Round): State
    requires IsRound(s.checkpoint, round)
  {
    State(if Completes(round) then round.next else s.checkpoint, s.published + Sent(round))
  }

  ghost predicate IsRun(s: State, rounds: seq<Round>)
    decreases |rounds|
  {
    rounds == [] || (IsRound(s.checkpoint, rounds[0]) && IsRun(Step(s, rounds[0]), rounds[1..]))
  }

  ghost function After(s: State, rounds: seq<Round>): State
    requires IsRun(s, rounds)
    decreases |rounds|
  {
    if rounds == [] then s else After(Step(s, rounds[0]), rounds[1..])
  }

  // ----- the sweep itself -----

  class Sweeper {
    var checkpoint: Option<Key>
    var published: seq<Message>
    ghost var start: State
    ghost var rounds: seq<Round>

    ghost predicate Valid()
      reads this
    {
      IsRun(start, rounds) && After(start, rounds) == State(checkpoint, published)
    }

    constructor (checkpoint: Option<Key>)
      ensures Valid() && this.checkpoint == checkpoint && published == [] && rounds == []
    {
      this.checkpoint, published, start, rounds := checkpoint, [], State(checkpoint, []), [];
    }

    /** The first loop of `handleWebhookIngressSweep`. */
    static method Classify(objects: seq<Object>, observedAt: Time)
      returns (candidates: seq<Message>, invalidObjectCount: nat)
      ensures candidates == Candidates(objects, observedAt)
      ensures invalidObjectCount == Count(objects, IsInvalid)
      ensures |candidates| + invalidObjectCount + Count(objects, o => IsTooRecent(o, observedAt)) == |objects|
    {
      hide Candidates, Count;
      candidates, invalidObjectCount := [], 0;
      ghost var tooRecent: Object -> bool := o => IsTooRecent(o, observedAt);
      NothingLeft(observedAt, IsInvalid);
      NothingLeft(observedAt, tooRecent);
      assert objects[0..] == objects && objects[|objects|..] == [];
      for i := 0 to |objects|
        invariant candidates + Candidates(objects[i..], observedAt) == Candidates(objects, observedAt)
        invariant invalidObjectCount + Count(objects[i..], IsInvalid) == Count(objects, IsInvalid)
        invariant |candidates| + invalidObjectCount + Count(objects, tooRecent) == i + Count(objects[i..], tooRecent)
      {
        NextObject(objects, i, observedAt);
        CountNext(objects, i, IsInvalid);
        CountNext(objects, i, tooRecent);
        if IsInvalid(objects[i]) {
          invalidObjectCount := invalidObjectCount + 1;
          continue;
        }
        if objects[i].uploadedAt.value <= observedAt - GRACE_MILLISECONDS {
          candidates := candidates + [objects[i].message.value];
        }
      }
    }

    /** The publishing loop, up to a failure. */
    method Publish(messages: seq<Message>, fault: Option<nat>) returns (completed: bool)
      modifies this`published
      ensures completed <==> fault.None? || |messages| <= fault.value
      ensures published == old(published) + if completed then messages else messages[..fault.value]
    {
      for i := 0 to |messages|
        invariant published == old(published) + messages[..i]
        invariant fault.Some? ==> i <= fault.value
      {
        if fault == Some(i) { return false; }
        published := published + [messages[i]];
      }
      assert messages[..|messages|] == messages;
      return true;
    }

    /** `handleWebhookIngressSweep`: nothing is published past a conflicting
        candidate, and the checkpoint moves only after everything was published. */
    method Sweep(round: Round) returns (completed: bool)
      requires Valid() && IsRound(checkpoint, round)
      modifies this
      ensures Valid() && start == old(start) && rounds == old(rounds) + [round]
      ensures published == old(published) + Sent(round)
      ensures completed == Completes(round)
      ensures completed ==> checkpoint == round.next && Found(round).Some? && Sent(round) == Found(round).value
      ensures !completed ==> checkpoint == old(checkpoint)
    {
      hide IsRun, After, Candidates, FilterUnclaimed, IsPage;
      PageInBucket(checkpoint, round);
      RoundAppended(start, rounds, round);
      rounds := rounds + [round];
      var objects := Objects(round.bucket, round.page);
      var candidates, invalidObjectCount := Classify(objects, round.observedAt);
      var unclaimed := FilterUnclaimed(candidates, round.status);
      if unclaimed.None? { return false; }
      var sent := Publish(unclaimed.value, round.fault);
      if !sent || round.fault.Some? { return false; }
      checkpoint := round.next;
      return true;
    }
  }

  lemma PageInBucket(checkpoint: Option<Key>, round: Round)
    requires IsRound(checkpoint, round)
    ensures PagesExist(round)
  {
  }

  lemma {:induction false} RoundAppended(s: State, rounds: seq<Round>, round: Round)
    requires IsRun(s, rounds) && IsRound(After(s, rounds).checkpoint, round)
    ensures IsRun(s, rounds + [round]) && After(s, rounds + [round]) == Step(After(s, rounds), round)
    decreases |rounds|
  {
    if rounds == [] {
      assert ([] + [round])[1..] == [];
    } else {
      assert (rounds + [round])[0] == rounds[0] && (rounds + [round])[1..] == rounds[1..] + [round];
      RoundAppended(Step(s, rounds[0]), rounds[1..], round);
    }
  }

  // ----- sequences of rounds -----

  /** In every round the object is there, valid and old enough. */
  ghost predicate StaysEligible(rounds: seq<Round>, k: Key, m: Message) {
    forall i :: 0 <= i < |rounds| ==>
      k in rounds[i].bucket && rounds[i].bucket[k].message == Some(m) && IsCandidate(rounds[i].bucket[k], rounds[i].observedAt)
  }

  ghost predicate PagesExist(round: Round) {
    forall k :: k in round.page ==> k in round.bucket
  }

  /** Some completed round had the key on its page. */
  ghost predicate Covered(rounds: seq<Round>, k: Key) {
    exists i :: 0 <= i < |rounds| && PagesExist(rounds[i]) && Completes(rounds[i]) && k in rounds[i].page
  }

  ghost predicate AnyCompletes(rounds: seq<Round>) {
    exists i :: 0 <= i < |rounds| && PagesExist(rounds[i]) && Completes(rounds[i])
  }

  lemma RunTail(rounds: seq<Round>, k: Key, m: Message)
    requires StaysEligible(rounds, k, m) && rounds != []
    ensures StaysEligible(rounds[1..], k, m)
    ensures Covered(rounds[1..], k) ==> Covered(rounds, k)
    ensures AnyCompletes(rounds) && !(PagesExist(rounds[0]) && Completes(rounds[0])) ==> AnyCompletes(rounds[1..])
  {
    assert forall i :: 0 <= i < |rounds| - 1 ==> rounds[1..][i] == rounds[i + 1];
    if AnyCompletes(rounds) && !(PagesExist(rounds[0]) && Completes(rounds[0])) {
      var i :| 0 <= i < |rounds| && PagesExist(rounds[i]) && Completes(rounds[i]);
      assert rounds[1..][i - 1] == rounds[i];
    }
  }

  /** The checkpoint cannot get past a key without covering it. */
  lemma {:induction false} CoveredOrAhead(s: State, rounds: seq<Round>, k: Key, m: Message)
    requires IsRun(s, rounds) && StaysEligible(rounds, k, m) && Beyond(s.checkpoint, k)
    ensures Covered(rounds, k) ||
            (Beyond(After(s, rounds).checkpoint, k) && (After(s, rounds).checkpoint.None? ==> !AnyCompletes(rounds)))
    decreases |rounds|
  {
    if rounds != [] {
      var round, next := rounds[0], Step(s, rounds[0]);
      RunTail(rounds, k, m);
      if Completes(round) {
        if k !in round.page {
          CoveredOrAhead(next, rounds[1..], k, m);
          NoWrap(next, rounds[1..], k, m);
        }
      } else {
        CoveredOrAhead(next, rounds[1..], k, m);
      }
    }
  }

  /** From a checkpoint short of the key, the cursor cannot return to the start
      without covering the key. */
  lemma {:induction false} NoWrap(s: State, rounds: seq<Round>, k: Key, m: Message)
    requires IsRun(s, rounds) && StaysEligible(rounds, k, m) && Beyond(s.checkpoint, k) && s.checkpoint.Some?
    ensures Covered(rounds, k) || After(s, rounds).checkpoint.Some?
    decreases |rounds|
  {
    if rounds != [] {
      RunTail(rounds, k, m);
      if !Completes(rounds[0]) || k !in rounds[0].page {
        NoWrap(Step(s, rounds[0]), rounds[1..], k, m);
      }
    }
  }

  lemma {:induction false} SentIsPublished(s: State, rounds: seq<Round>, i: nat, m: Message)
    requires IsRun(s, rounds) && i < |rounds| && PagesExist(rounds[i]) && m in Sent(rounds[i])
    ensures m in After(s, rounds).published
    decreases |rounds|
  {
    hide Sent, Completes, IsPage;
    var next := Step(s, rounds[0]);
    if i == 0 {
      PublishedStays(next, rounds[1..], m);
    } else {
      assert rounds[1..][i - 1] == rounds[i];
      SentIsPublished(next, rounds[1..], i - 1, m);
    }
  }

  lemma {:induction false} PublishedStays(s: State, rounds: seq<Round>, m: Message)
    requires IsRun(s, rounds) && m in s.published
    ensures m in After(s, rounds).published
    decreases |rounds|
  {
    if rounds != [] { PublishedStays(Step(s, rounds[0]), rounds[1..], m); }
  }

  lemma CandidateOnPage(round: Round, k: Key, m: Message)
    requires PagesExist(round) && k in round.page
    requires round.bucket[k].message == Some(m) && IsCandidate(round.bucket[k], round.observedAt)
    ensures m in Candidates(Objects(round.bucket, round.page), round.observedAt)
  {
    var i :| 0 <= i < |round.page| && round.page[i] == k;
    var objects := Objects(round.bucket, round.page);
    assert IsCandidate(objects[i], round.observedAt) && objects[i].message.value == m;
    CandidatesAt(objects, round.observedAt, m);
  }

  /** Over a full cycle of the cursor, with any rounds crashing anywhere and other
      objects coming and going, every object that stays valid, old enough and
      unclaimed is published. */
  lemma CyclePublishes(s: State, rounds: seq<Round>, k: Key, m: Message)
    requires IsRun(s, rounds) && s.checkpoint.None? && After(s, rounds).checkpoint.None? && AnyCompletes(rounds)
    requires StaysEligible(rounds, k, m) && forall i :: 0 <= i < |rounds| ==> rounds[i].status(m) == Unclaimed
    ensures m in After(s, rounds).published
  {
    CoveredOrAhead(s, rounds, k, m);
    var i :| 0 <= i < |rounds| && PagesExist(rounds[i]) && Completes(rounds[i]) && k in rounds[i].page;
    CandidateOnPage(rounds[i], k, m);
    SentIsPublished(s, rounds, i, m);
  }

  /** A round completes exactly when nothing fails and no candidate on its page
      conflicts. */
  lemma CompletesIff(round: Round)
    requires PagesExist(round)
    ensures Completes(round) <==>
              round.fault.None? &&
              forall k :: k in round.page && IsCandidate(round.bucket[k], round.observedAt) ==>
                round.status(round.bucket[k].message.value) != Conflicting
  {
    var objects := Objects(round.bucket, round.page);
    if Found(round).None? {
      var m :| m in Candidates(objects, round.observedAt) && round.status(m) == Conflicting;
      CandidatesAt(objects, round.observedAt, m);
      var i :| 0 <= i < |objects| && IsCandidate(objects[i], round.observedAt) && objects[i].message.value == m;
      assert round.page[i] in round.page;
    }
    forall k | k in round.page && IsCandidate(round.bucket[k], round.observedAt)
      ensures round.bucket[k].message.value in Candidates(objects, round.observedAt)
    {
      CandidateOnPage(round, k, round.bucket[k].message.value);
    }
  }

  /** A round that meets the object in conflict publishes nothing, and none passes it. */
  lemma ConflictHolds(s: State, round: Round, k: Key, m: Message)
    requires IsRound(s.checkpoint, round) && Beyond(s.checkpoint, k) && round.status(m) == Conflicting
    requires k in round.bucket && round.bucket[k].message == Some(m)
    requires IsCandidate(round.bucket[k], round.observedAt)
    ensures PagesExist(round) && Beyond(Step(s, round).checkpoint, k)
    ensures forall later :: later in round.page && k <= later ==> !Completes(round) && Sent(round) == []
  {
    if k in round.page {
      CandidateOnPage(round, k, m);
    } else {
      assert round.next.Some? && round.next.value < k;
    }
  }

  /** An object whose claim stays in conflict stops the sweep for good: the
      checkpoint never passes it, and no round whose page holds it, or any key
      after it, publishes anything. */
  lemma {:induction false} ConflictBlocks(s: State, rounds: seq<Round>, k: Key, m: Message)
    requires IsRun(s, rounds) && Beyond(s.checkpoint, k) && StaysEligible(rounds, k, m)
    requires forall i :: 0 <= i < |rounds| ==> rounds[i].status(m) == Conflicting
    ensures Beyond(After(s, rounds).checkpoint, k)
    ensures forall i, later :: 0 <= i < |rounds| && later in rounds[i].page && k <= later ==>
              PagesExist(rounds[i]) && !Completes(rounds[i]) && Sent(rounds[i]) == []
    decreases |rounds|
  {
    if rounds != [] {
      var round := rounds[0];
      RunTail(rounds, k, m);
      ConflictHolds(s, round, k, m);
      hide Step, IsRound, Completes, Sent, Beyond, Covered, AnyCompletes;
      assert forall i :: 0 <= i < |rounds| - 1 ==> rounds[1..][i] == rounds[i + 1];
      ConflictBlocks(Step(s, round), rounds[1..], k, m);
      forall i, later | 0 <= i < |rounds| && later in rounds[i].page && k <= later
        ensures PagesExist(rounds[i]) && !Completes(rounds[i]) && Sent(rounds[i]) == []
      {
        if i > 0 { assert rounds[1..][i - 1] == rounds[i]; }
      }
    }
  }

  // ----- progress -----

  ghost function Ahead(bucket: map<Key, Object>, cursor: Option<Key>): set<Key> {
    set k | k in bucket && Beyond(cursor, k)
  }

  /** A completed round from its own checkpoint leaves exactly its page behind, or
      ends the cycle. */
  lemma RoundAdvances(checkpoint: Option<Key>, round: Round)
    requires IsPage(round.bucket, checkpoint, round.page, round.next) && Completes(round)
    ensures round.next.None? ||
            (Ahead(round.bucket, round.next) < Ahead(round.bucket, checkpoint)
             && Ahead(round.bucket, checkpoint) == Ahead(round.bucket, round.next) + set k | k in round.page)
  {
    if round.next.Some? {
      assert round.next.value in round.page;
      assert round.next.value in Ahead(round.bucket, checkpoint) && round.next.value !in Ahead(round.bucket, round.next);
      forall k ensures k in Ahead(round.bucket, checkpoint) <==> k in Ahead(round.bucket, round.next) || k in round.page {
      }
    }
  }

  /** Rounds over an unchanged bucket, each listing from the checkpoint the last
      one saved, and none failing. */
  ghost predicate Unhindered(checkpoint: Option<Key>, rounds: seq<Round>, bucket: map<Key, Object>)
    decreases |rounds|
  {
    rounds == [] ||
    (rounds[0].bucket == bucket && IsPage(bucket, checkpoint, rounds[0].page, rounds[0].next)
     && Completes(rounds[0]) && Unhindered(rounds[0].next, rounds[1..], bucket))
  }

  /** They end the cycle after at most one more of them than keys lie ahead. */
  lemma {:induction false} CycleEnds(checkpoint: Option<Key>, rounds: seq<Round>, bucket: map<Key, Object>)
    requires Unhindered(checkpoint, rounds, bucket) && |Ahead(bucket, checkpoint)| < |rounds|
    ensures exists i :: 0 <= i < |rounds| && rounds[i].next.None?
    decreases |rounds|
  {
    hide IsPage, Completes;
    var round := rounds[0];
    RoundAdvances(checkpoint, round);
    if round.next.Some? {
      SmallerSet(Ahead(bucket, round.next), Ahead(bucket, checkpoint));
      CycleEnds(round.next, rounds[1..], bucket);
      var i :| 0 <= i < |rounds[1..]| && rounds[1..][i].next.None?;
      assert rounds[i + 1].next.None?;
    }
  }

  lemma SmallerSet(a: set<Key>, b: set<Key>)
    requires a < b
    ensures |a| < |b|
  {
    assert b == a + (b - a);
  }

  // ----- a blocked sweep -----

  const OLD := Object(Some(1), Some(0))
  const BEHIND := Object(Some(2), Some(0))

  function Status1(m: Message): Status {
    if m == 1 then Conflicting else Unclaimed
  }

  const BLOCKED := Round(map[1 := OLD, 2 := BEHIND], [1, 2], None, 60_000, Status1, None)

  function Rounds(n: nat): seq<Round> {
    seq(n, _ => BLOCKED)
  }

  /** Two old objects, the first in conflict: in however many rounds, the second,
      valid and unclaimed, is never published. */
  lemma {:induction false} ConflictBlocksForGood(n: nat)
    ensures var s := State(None, []);
            IsRun(s, Rounds(n)) && After(s, Rounds(n)) == s && StaysEligible(Rounds(n), 2, 2) && Status1(2) == Unclaimed
  {
    var s := State(None, []);
    if n > 0 {
      assert PagesExist(BLOCKED) && IsPage(BLOCKED.bucket, None, BLOCKED.page, None);
      CompletesIff(BLOCKED);
      assert 1 in BLOCKED.page && IsCandidate(BLOCKED.bucket[1], BLOCKED.observedAt);
      assert !Completes(BLOCKED) && Step(s, BLOCKED) == s;
      assert Rounds(n)[1..] == Rounds(n - 1);
      ConflictBlocksForGood(n - 1);
    }
  }
}
