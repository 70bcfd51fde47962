/** Reapplying journal evidence to recipients that a restored snapshot lacked:
    the scan by pages, what it replays and resolves and in which order, what a
    crash in the middle costs, and whom the limit on recorded prefixes starves. */
module JournalScan {
  import opened Options
  import opened ExclusionRules
  import opened Sorting

  type Key = nat
  type Prefix = nat

  datatype Candidate = Candidate(key: Key, projectedAt: Time)

  datatype Event = Reapplied(key: Key, transition: Transition) | Resolved(prefix: Prefix)

  /** The journal: the prefix of every recipient, the transitions under every prefix. */
  datatype Journal = Journal(prefixOf: Key -> Prefix, transitions: Prefix -> seq<Transition>)

  const PAGE: nat := 500
  const PREFIXES: nat := 1000

  // ----- the listing -----

  predicate Beyond(cursor: Option<Key>, key: Key) {
    cursor.None? || cursor.value < key
  }

  ghost predicate AscendingKeys(directory: seq<Candidate>) {
    forall i, j :: 0 <= i < j < |directory| ==> directory[i].key < directory[j].key
  }

  /** `list_recipient_identities_without_exclusion`, without its limit. */
  function Listed(directory: seq<Candidate>, since: Time, ruled: set<Key>, cursor: Option<Key>): (cs: seq<Candidate>)
    ensures forall c :: c in cs <==> c in directory && since <= c.projectedAt && c.key !in ruled && Beyond(cursor, c.key)
  {
    if directory == [] then []
    else
      var rest := Listed(directory[1..], since, ruled, cursor);
      if since <= directory[0].projectedAt && directory[0].key !in ruled && Beyond(cursor, directory[0].key)
      then [directory[0]] + rest else rest
  }

  lemma AscendingTail(directory: seq<Candidate>)
    requires AscendingKeys(directory) && directory != []
    ensures AscendingKeys(directory[1..]) && forall c :: c in directory[1..] ==> directory[0].key < c.key
  {
    assert forall i :: 0 <= i < |directory| - 1 ==> directory[1..][i] == directory[i + 1];
  }

  lemma {:induction false} ListedAscends(directory: seq<Candidate>, since: Time, ruled: set<Key>, cursor: Option<Key>)
    requires AscendingKeys(directory)
    ensures AscendingKeys(Listed(directory, since, ruled, cursor))
  {
    if directory != [] {
      AscendingTail(directory);
      ListedAscends(directory[1..], since, ruled, cursor);
    }
  }

  function ByKey(a: Candidate, b: Candidate): int {
    a.key - b.key
  }

  lemma KeysDetermine(a: seq<Candidate>, b: seq<Candidate>)
    requires AscendingKeys(a) && AscendingKeys(b) && forall c :: c in a <==> c in b
    ensures a == b
  {
    assert OrderOn(ByKey, a);
    AscendingIsUnique(ByKey, a, b);
  }

  lemma AfterIndex(listed: seq<Candidate>, n: nat)
    requires AscendingKeys(listed) && 0 < n <= |listed|
    ensures AscendingKeys(listed[n..])
    ensures forall c :: c in listed[n..] <==> c in listed && listed[n - 1].key < c.key
  {
    assert forall i :: 0 <= i < |listed| - n ==> listed[n..][i] == listed[n + i];
    forall c | c in listed && listed[n - 1].key < c.key ensures c in listed[n..] {
      var i :| 0 <= i < |listed| && listed[i] == c;
      assert listed[n..][i - n] == c;
    }
  }

  /** Nothing beyond the last key of a page is hidden from the next one, whatever
      rules the page itself created. */
  lemma NextPage(directory: seq<Candidate>, since: Time, ruled: set<Key>, later: set<Key>, cursor: Option<Key>, n: nat)
    requires AscendingKeys(directory) && 0 < n <= |Listed(directory, since, ruled, cursor)|
    requires var last := Listed(directory, since, ruled, cursor)[n - 1].key;
             ruled <= later && forall k :: k in later && k !in ruled ==> k <= last
    ensures var listed := Listed(directory, since, ruled, cursor);
            && Beyond(cursor, listed[n - 1].key)
            && Listed(directory, since, later, Some(listed[n - 1].key)) == listed[n..]
  {
    hide Listed, AscendingKeys;
    var listed := Listed(directory, since, ruled, cursor);
    var last := listed[n - 1].key;
    ListedAscends(directory, since, ruled, cursor);
    ListedAscends(directory, since, later, Some(last));
    AfterIndex(listed, n);
    assert listed[n - 1] in listed;
    KeysDetermine(Listed(directory, since, later, Some(last)), listed[n..]);
  }

  // ----- the events of a pass and their effect -----

  function Replays(key: Key, ts: seq<Transition>): (es: seq<Event>)
    ensures |es| == |ts| && forall i :: 0 <= i < |ts| ==> es[i] == Reapplied(key, ts[i])
  {
    seq(|ts|, i requires 0 <= i < |ts| => Reapplied(key, ts[i]))
  }

  function Recovery(journal: Journal, key: Key): seq<Event> {
    Replays(key, journal.transitions(journal.prefixOf(key))) + [Resolved(journal.prefixOf(key))]
  }

  /** Candidates in listing order; a prefix is recovered at its first candidate. */
  function Events(journal: Journal, candidates: seq<Candidate>, unresolved: set<Prefix>): seq<Event> {
    if candidates == [] then []
    else
      var prefix := journal.prefixOf(candidates[0].key);
      if prefix !in unresolved then Events(journal, candidates[1..], unresolved)
      else Recovery(journal, candidates[0].key) + Events(journal, candidates[1..], unresolved - {prefix})
  }

  const NO_RULE := Rule(false, None, None, None, None, true, true)

  function RuleOf(rules: map<Key, Rule>, key: Key): Rule {
    if key in rules then rules[key] else NO_RULE
  }

  function RulesAfter(rules: map<Key, Rule>, events: seq<Event>): map<Key, Rule> {
    if events == [] then rules
    else
      var before, e := RulesAfter(rules, events[..|events| - 1]), events[|events| - 1];
      if e.Reapplied? then before[e.key := Replay(RuleOf(before, e.key), e.transition)] else before
  }

  function Remove(table: seq<Prefix>, prefix: Prefix): (left: seq<Prefix>)
    ensures forall p :: p in left <==> p in table && p != prefix
  {
    if table == [] then []
    else if table[0] == prefix then Remove(table[1..], prefix)
    else [table[0]] + Remove(table[1..], prefix)
  }

  function TableAfter(table: seq<Prefix>, events: seq<Event>): (left: seq<Prefix>)
    ensures forall p :: p in left <==> p in table && Resolved(p) !in events
  {
    if events == [] then table
    else
      var before, e := TableAfter(table, events[..|events| - 1]), events[|events| - 1];
      assert events == events[..|events| - 1] + [e];
      if e.Resolved? then Remove(before, e.prefix) else before
  }

  /** `list_unresolved_recipient_transition_prefixes`: the first thousand recorded
      prefixes, the table being in the order of the listing. */
  function Unresolved(table: seq<Prefix>): set<Prefix> {
    if |table| <= PREFIXES then (set p | p in table) else (set p | p in table[..PREFIXES])
  }

  lemma ReadsFirstThousand(table: seq<Prefix>, p: Prefix)
    ensures p in Unresolved(table) <==> exists i :: 0 <= i < |table| && i < 1000 && table[i] == p
  {
    if |table| > PREFIXES && p in table[..PREFIXES] {
      var i :| 0 <= i < PREFIXES && table[..PREFIXES][i] == p;
      assert table[i] == p;
    }
    if i :| 0 <= i < |table| && i < 1000 && table[i] == p {
      assert |table| > PREFIXES ==> table[..PREFIXES][i] == p;
    }
  }

  function PassEvents(journal: Journal, directory: seq<Candidate>, restoredAt: Option<Time>,
                      ruled: set<Key>, table: seq<Prefix>): seq<Event> {
    if restoredAt.None? then []
    else Events(journal, Listed(directory, restoredAt.value, ruled, None), Unresolved(table))
  }

  // ----- the scan -----

  class Scan {
    const journal: Journal
    const directory: seq<Candidate>
    const restoredAt: Option<Time>
    const initialRules: map<Key, Rule>
    const initialTable: seq<Prefix>
    var rules: map<Key, Rule>
    var table: seq<Prefix>
    var log: seq<Event>

    /** At every moment, so also when the scan is cut short, the stored state is
        what the events so far make of the initial one. */
    ghost predicate Valid()
      reads this
    {
      && AscendingKeys(directory)
      && rules == RulesAfter(initialRules, log) && table == TableAfter(initialTable, log)
    }

    constructor (journal: Journal, directory: seq<Candidate>, restoredAt: Option<Time>,
                 rules: map<Key, Rule>, table: seq<Prefix>)
      requires AscendingKeys(directory)
      ensures Valid() && this.journal == journal && this.directory == directory && this.restoredAt == restoredAt
      ensures this.rules == rules && this.table == table && log == []
    {
      this.journal, this.directory, this.restoredAt := journal, directory, restoredAt;
      initialRules, initialTable, this.rules, this.table, log := rules, table, rules, table, [];
    }

    method Emit(e: Event)
      requires Valid()
      modifies this
      ensures Valid() && log == old(log) + [e]
      ensures rules == if e.Reapplied? then old(rules)[e.key := Replay(RuleOf(old(rules), e.key), e.transition)] else old(rules)
    {
      log := log + [e];
      if e.Reapplied? {
        rules := rules[e.key := Replay(RuleOf(rules, e.key), e.transition)];
      } else {
        table := Remove(table, e.prefix);
      }
      assert log[..|log| - 1] == old(log);
    }

    /** All transitions of one prefix, then its resolution. */
    method RecoverCandidate(key: Key)
      requires Valid()
      modifies this
      ensures Valid() && log == old(log) + Recovery(journal, key)
      ensures rules.Keys <= old(rules).Keys + {key} && old(rules).Keys <= rules.Keys
    {
      var prefix := journal.prefixOf(key);
      var ts := journal.transitions(prefix);
      for i := 0 to |ts|
        invariant Valid() && log == old(log) + Replays(key, ts)[..i]
        invariant rules.Keys <= old(rules).Keys + {key} && old(rules).Keys <= rules.Keys
      {
        Emit(Reapplied(key, ts[i]));
      }
      Emit(Resolved(prefix));
    }

    /** The first n of the listed candidates; prefixes not wanted are passed over. */
    method RecoverPage(listed: seq<Candidate>, n: nat, unresolved: set<Prefix>) returns (left: set<Prefix>)
      requires Valid() && n <= |listed|
      modifies this
      ensures Valid() && old(rules).Keys <= rules.Keys
      ensures forall k :: k in rules.Keys && k !in old(rules).Keys ==> exists j :: 0 <= j < n && listed[j].key == k
      ensures log + Events(journal, listed[n..], left) == old(log) + Events(journal, listed, unresolved)
    {
      hide RulesAfter, TableAfter, Recovery;
      left := unresolved;
      for i := 0 to n
        invariant Valid() && old(rules).Keys <= rules.Keys
        invariant forall k :: k in rules.Keys && k !in old(rules).Keys ==> exists j :: 0 <= j < i && listed[j].key == k
        invariant log + Events(journal, listed[i..], left) == old(log) + Events(journal, listed, unresolved)
      {
        var prefix := journal.prefixOf(listed[i].key);
        assert listed[i..][1..] == listed[i + 1..] && listed[i..][0] == listed[i];
        if prefix in left {
          RecoverCandidate(listed[i].key);
          left := left - {prefix};
        }
      }
    }

    /** `recoverJournaledRecipientExclusions`. */
    method Recover()
      requires Valid()
      modifies this
      ensures Valid()
      ensures log == old(log) + PassEvents(journal, directory, restoredAt, old(rules).Keys, old(table))
    {
      hide RulesAfter, TableAfter, Listed, AscendingKeys, Events;
      var unresolved := Unresolved(table);
      if unresolved == {} || restoredAt.None? {
        if restoredAt.Some? { NothingToRecover(journal, Listed(directory, restoredAt.value, rules.Keys, None)); }
        return;
      }
      var since := restoredAt.value;
      var cursor: Option<Key> := None;
      ghost var all := Events(journal, Listed(directory, since, rules.Keys, None), unresolved);
      while true
        invariant Valid()
        invariant log + Events(journal, Listed(directory, since, rules.Keys, cursor), unresolved) == old(log) + all
        decreases |Listed(directory, since, rules.Keys, cursor)|
      {
        var listed := Listed(directory, since, rules.Keys, cursor);
        var n := if |listed| <= PAGE then |listed| else PAGE;
        ghost var ruled := rules.Keys;
        unresolved := RecoverPage(listed, n, unresolved);
        if n < PAGE {
          assert listed[n..] == [];
          NoEvents(journal, unresolved);
          break;
        }
        KeysWithinPage(listed, n, ruled, rules.Keys, directory, since, cursor);
        NextPage(directory, since, ruled, rules.Keys, cursor, n);
        if Some(listed[n - 1].key) == cursor { break; }
        cursor := Some(listed[n - 1].key);
      }
    }
  }

  lemma NoEvents(journal: Journal, unresolved: set<Prefix>)
    ensures Events(journal, [], unresolved) == []
  {
  }

  lemma KeysWithinPage(listed: seq<Candidate>, n: nat, ruled: set<Key>, later: set<Key>,
                       directory: seq<Candidate>, since: Time, cursor: Option<Key>)
    requires AscendingKeys(directory) && listed == Listed(directory, since, ruled, cursor) && 0 < n <= |listed|
    requires forall k :: k in later && k !in ruled ==> exists j :: 0 <= j < n && listed[j].key == k
    ensures forall k :: k in later && k !in ruled ==> k <= listed[n - 1].key
  {
    hide Listed;
    ListedAscends(directory, since, ruled, cursor);
    forall k | k in later && k !in ruled ensures k <= listed[n - 1].key {
      var j :| 0 <= j < n && listed[j].key == k;
      assert j < n - 1 ==> listed[j].key < listed[n - 1].key;
    }
  }

  lemma {:induction false} NothingToRecover(journal: Journal, candidates: seq<Candidate>)
    ensures Events(journal, candidates, {}) == []
  {
    if candidates != [] { NothingToRecover(journal, candidates[1..]); }
  }

  // ----- what a pass replays and resolves -----

  /** Something under this prefix is replayed or resolved. */
  ghost predicate Mentions(journal: Journal, events: seq<Event>, p: Prefix) {
    exists e :: e in events && PrefixOf(journal, e) == p
  }

  function PrefixOf(journal: Journal, e: Event): Prefix {
    match e
    case Reapplied(key, _) => journal.prefixOf(key)
    case Resolved(prefix) => prefix
  }

  ghost predicate Covers(journal: Journal, candidates: seq<Candidate>, p: Prefix) {
    exists c :: c in candidates && journal.prefixOf(c.key) == p
  }

  lemma MentionsConcat(journal: Journal, a: seq<Event>, b: seq<Event>, p: Prefix)
    ensures Mentions(journal, a + b, p) <==> Mentions(journal, a, p) || Mentions(journal, b, p)
  {
    if Mentions(journal, a, p) { var e :| e in a && PrefixOf(journal, e) == p; assert e in a + b; }
    if Mentions(journal, b, p) { var e :| e in b && PrefixOf(journal, e) == p; assert e in a + b; }
  }

  lemma RecoveryMentions(journal: Journal, key: Key, p: Prefix)
    ensures Mentions(journal, Recovery(journal, key), p) <==> p == journal.prefixOf(key)
  {
    var es := Recovery(journal, key);
    assert es[|es| - 1] in es;
    assert PrefixOf(journal, es[|es| - 1]) == journal.prefixOf(key);
  }

  /** A pass touches exactly the unresolved prefixes of listed candidates. */
  lemma {:induction false} TouchedExactly(journal: Journal, candidates: seq<Candidate>, unresolved: set<Prefix>, p: Prefix)
    ensures Mentions(journal, Events(journal, candidates, unresolved), p) <==>
              p in unresolved && Covers(journal, candidates, p)
  {
    if candidates != [] {
      var first := candidates[0];
      var prefix := journal.prefixOf(first.key);
      assert Covers(journal, candidates, p) <==> prefix == p || Covers(journal, candidates[1..], p) by {
        if c :| c in candidates && journal.prefixOf(c.key) == p { assert c == first || c in candidates[1..]; }
      }
      if prefix in unresolved {
        TouchedExactly(journal, candidates[1..], unresolved - {prefix}, p);
        MentionsConcat(journal, Recovery(journal, first.key), Events(journal, candidates[1..], unresolved - {prefix}), p);
        RecoveryMentions(journal, first.key, p);
      } else {
        TouchedExactly(journal, candidates[1..], unresolved, p);
      }
    }
  }

  /** And each one in a single stretch: all its transitions, oldest first, then
      its resolution, and no further event about it. */
  lemma {:induction false} RecoveredInOneStretch(
    journal: Journal, candidates: seq<Candidate>, unresolved: set<Prefix>, p: Prefix)
    returns (before: seq<Event>, c: Candidate, after: seq<Event>)
    requires p in unresolved && Covers(journal, candidates, p)
    ensures c in candidates && journal.prefixOf(c.key) == p
    ensures Events(journal, candidates, unresolved) == before + Recovery(journal, c.key) + after
    ensures !Mentions(journal, before, p) && !Mentions(journal, after, p)
  {
    var first := candidates[0];
    var prefix := journal.prefixOf(first.key);
    if prefix == p {
      before, c, after := [], first, Events(journal, candidates[1..], unresolved - {p});
      TouchedExactly(journal, candidates[1..], unresolved - {p}, p);
    } else {
      assert Covers(journal, candidates[1..], p) by {
        var d :| d in candidates && journal.prefixOf(d.key) == p;
        assert d in candidates[1..];
      }
      if prefix in unresolved {
        before, c, after := RecoveredInOneStretch(journal, candidates[1..], unresolved - {prefix}, p);
        MentionsConcat(journal, Recovery(journal, first.key), before, p);
        RecoveryMentions(journal, first.key, p);
        before := Recovery(journal, first.key) + before;
      } else {
        before, c, after := RecoveredInOneStretch(journal, candidates[1..], unresolved, p);
      }
    }
  }

  function TransitionsFor(events: seq<Event>, key: Key): seq<Transition> {
    if events == [] then []
    else
      var before, e := TransitionsFor(events[..|events| - 1], key), events[|events| - 1];
      if e.Reapplied? && e.key == key then before + [e.transition] else before
  }

  lemma {:induction false} ReplayAllSnoc(rule: Rule, ts: seq<Transition>, t: Transition)
    ensures ReplayAll(rule, ts + [t]) == Replay(ReplayAll(rule, ts), t)
    decreases |ts|
  {
    if ts == [] {
      assert ([] + [t])[1..] == [];
    } else {
      assert (ts + [t])[1..] == ts[1..] + [t];
      ReplayAllSnoc(Replay(rule, ts[0]), ts[1..], t);
    }
  }

  /** Every rule is what the transitions replayed for it make of the old one. */
  lemma {:induction false} RuleAfter(rules: map<Key, Rule>, events: seq<Event>, key: Key)
    ensures RuleOf(RulesAfter(rules, events), key) == ReplayAll(RuleOf(rules, key), TransitionsFor(events, key))
    ensures key in RulesAfter(rules, events) <==> key in rules || TransitionsFor(events, key) != []
  {
    if events != [] {
      var before, e := events[..|events| - 1], events[|events| - 1];
      RuleAfter(rules, before, key);
      if e.Reapplied? { ReplayAllSnoc(RuleOf(rules, key), TransitionsFor(before, key), e.transition); }
    }
  }

  lemma {:induction false} TransitionsConcat(a: seq<Event>, b: seq<Event>, key: Key)
    ensures TransitionsFor(a + b, key) == TransitionsFor(a, key) + TransitionsFor(b, key)
    decreases |b|
  {
    if b == [] {
      assert a + b == a;
    } else {
      assert (a + b)[..|a + b| - 1] == a + b[..|b| - 1];
      TransitionsConcat(a, b[..|b| - 1], key);
    }
  }

  lemma {:induction false} NoTransitions(journal: Journal, events: seq<Event>, key: Key)
    requires !Mentions(journal, events, journal.prefixOf(key))
    ensures TransitionsFor(events, key) == []
  {
    if events != [] {
      var before, e := events[..|events| - 1], events[|events| - 1];
      assert e in events && forall x :: x in before ==> x in events;
      NoTransitions(journal, before, key);
    }
  }

  lemma {:induction false} ReplayedTransitions(key: Key, ts: seq<Transition>)
    ensures TransitionsFor(Replays(key, ts), key) == ts
    decreases |ts|
  {
    if ts != [] {
      assert Replays(key, ts)[..|ts| - 1] == Replays(key, ts[..|ts| - 1]);
      ReplayedTransitions(key, ts[..|ts| - 1]);
    }
  }

  ghost predicate DistinctPrefixes(journal: Journal, directory: seq<Candidate>) {
    forall a, b :: a in directory && b in directory && journal.prefixOf(a.key) == journal.prefixOf(b.key) ==> a == b
  }

  /** After a whole pass, a listed recipient of an unresolved prefix has the rule
      that replaying its whole journal gives. */
  lemma PassReapplies(journal: Journal, directory: seq<Candidate>, since: Time, rules: map<Key, Rule>,
                      table: seq<Prefix>, c: Candidate)
    requires DistinctPrefixes(journal, directory)
    requires c in Listed(directory, since, rules.Keys, None) && journal.prefixOf(c.key) in Unresolved(table)
    ensures var events := PassEvents(journal, directory, Some(since), rules.Keys, table);
            var p := journal.prefixOf(c.key);
            && RuleOf(RulesAfter(rules, events), c.key) == ReplayAll(NO_RULE, journal.transitions(p))
            && p !in TableAfter(table, events)
  {
    hide RulesAfter, TableAfter, Recovery, Events;
    var candidates, p := Listed(directory, since, rules.Keys, None), journal.prefixOf(c.key);
    var events := PassEvents(journal, directory, Some(since), rules.Keys, table);
    var before, d, after := RecoveredInOneStretch(journal, candidates, Unresolved(table), p);
    assert d == c;
    RecoveryOf(journal, before, c.key, after);
    RuleAfter(rules, events, c.key);
  }

  lemma RecoveryOf(journal: Journal, before: seq<Event>, key: Key, after: seq<Event>)
    requires !Mentions(journal, before, journal.prefixOf(key)) && !Mentions(journal, after, journal.prefixOf(key))
    ensures var events, p := before + Recovery(journal, key) + after, journal.prefixOf(key);
            TransitionsFor(events, key) == journal.transitions(p) && Resolved(p) in events
  {
    var ts, p := journal.transitions(journal.prefixOf(key)), journal.prefixOf(key);
    TransitionsConcat(before + Recovery(journal, key), after, key);
    TransitionsConcat(before, Recovery(journal, key), key);
    TransitionsConcat(Replays(key, ts), [Resolved(p)], key);
    assert TransitionsFor([Resolved(p)], key) == [] by { assert [Resolved(p)][..0] == []; }
    ReplayedTransitions(key, ts);
    NoTransitions(journal, before, key);
    NoTransitions(journal, after, key);
    assert (before + Recovery(journal, key) + after)[|before| + |ts|] == Resolved(p);
  }

  // ----- crashes -----

  datatype Stored = Stored(rules: map<Key, Rule>, table: seq<Prefix>)

  /** A pass that stops after n events, or runs to its end when it has fewer. */
  function Pass(journal: Journal, directory: seq<Candidate>, restoredAt: Option<Time>, st: Stored, n: nat): Stored {
    var events := PassEvents(journal, directory, restoredAt, st.rules.Keys, st.table);
    var done := if n < |events| then events[..n] else events;
    Stored(RulesAfter(st.rules, done), TableAfter(st.table, done))
  }

  function Passes(journal: Journal, directory: seq<Candidate>, restoredAt: Option<Time>, st: Stored, cuts: seq<nat>): Stored
    decreases |cuts|
  {
    if cuts == [] then st
    else Passes(journal, directory, restoredAt, Pass(journal, directory, restoredAt, st, cuts[0]), cuts[1..])
  }

  /** A recipient with a rule is not listed, so a pass neither replays nor
      resolves anything of it. */
  lemma RuledIsUntouched(journal: Journal, directory: seq<Candidate>, restoredAt: Option<Time>, st: Stored,
                         c: Candidate, n: nat)
    requires DistinctPrefixes(journal, directory) && c in directory && c.key in st.rules
    ensures var next := Pass(journal, directory, restoredAt, st, n);
            && c.key in next.rules && next.rules[c.key] == st.rules[c.key]
            && (journal.prefixOf(c.key) in next.table <==> journal.prefixOf(c.key) in st.table)
  {
    hide RulesAfter, TableAfter, Events;
    var p := journal.prefixOf(c.key);
    var events := PassEvents(journal, directory, restoredAt, st.rules.Keys, st.table);
    if restoredAt.Some? {
      TouchedExactly(journal, Listed(directory, restoredAt.value, st.rules.Keys, None), Unresolved(st.table), p);
    }
    assert !Mentions(journal, events, p);
    LeftOut(journal, st, events, c.key, n);
  }

  /** So a recovery interrupted between its first replay and its resolution is
      never taken up again: the rule keeps what was replayed so far, and the
      prefix stays unresolved, however many passes follow. */
  lemma {:induction false} InterruptedIsStuck(journal: Journal, directory: seq<Candidate>, restoredAt: Option<Time>,
                                              st: Stored, c: Candidate, cuts: seq<nat>)
    requires DistinctPrefixes(journal, directory) && c in directory && c.key in st.rules
    requires journal.prefixOf(c.key) in st.table
    ensures var last := Passes(journal, directory, restoredAt, st, cuts);
            c.key in last.rules && last.rules[c.key] == st.rules[c.key] && journal.prefixOf(c.key) in last.table
    decreases |cuts|
  {
    if cuts != [] {
      RuledIsUntouched(journal, directory, restoredAt, st, c, cuts[0]);
      InterruptedIsStuck(journal, directory, restoredAt, Pass(journal, directory, restoredAt, st, cuts[0]), c, cuts[1..]);
    }
  }

  /** After a pass cut short anywhere, a complete pass leaves a listed prefix
      unresolved exactly when it was cut in the middle, or when a thousand recorded
      prefixes are still in front of it. */
  lemma CrashCostsExactly(journal: Journal, directory: seq<Candidate>, since: Time, st: Stored, c: Candidate,
                          n: nat, whole: nat)
    requires DistinctPrefixes(journal, directory) && c in Listed(directory, since, st.rules.Keys, None)
    requires var crashed := Pass(journal, directory, Some(since), st, n);
             |PassEvents(journal, directory, Some(since), crashed.rules.Keys, crashed.table)| <= whole
    ensures var crashed, p := Pass(journal, directory, Some(since), st, n), journal.prefixOf(c.key);
            p in Pass(journal, directory, Some(since), crashed, whole).table
            <==> p in crashed.table && (c.key in crashed.rules || p !in Unresolved(crashed.table))
  {
    hide RulesAfter, TableAfter, Events, Unresolved;
    var crashed, p := Pass(journal, directory, Some(since), st, n), journal.prefixOf(c.key);
    if c.key in crashed.rules {
      RuledIsUntouched(journal, directory, Some(since), crashed, c, whole);
    } else if p in Unresolved(crashed.table) {
      PassReapplies(journal, directory, since, crashed.rules, crashed.table, c);
    } else {
      UnreadIsUntouched(journal, directory, Some(since), crashed, c.key, whole);
    }
  }

  /** A recipient whose prefix a pass does not read is left alone by it. */
  lemma UnreadIsUntouched(journal: Journal, directory: seq<Candidate>, restoredAt: Option<Time>, st: Stored,
                          key: Key, n: nat)
    requires journal.prefixOf(key) !in Unresolved(st.table)
    ensures var next, p := Pass(journal, directory, restoredAt, st, n), journal.prefixOf(key);
            && (key in next.rules <==> key in st.rules) && RuleOf(next.rules, key) == RuleOf(st.rules, key)
            && (p in next.table <==> p in st.table)
  {
    hide RulesAfter, TableAfter, Events, Unresolved;
    var p := journal.prefixOf(key);
    var events := PassEvents(journal, directory, restoredAt, st.rules.Keys, st.table);
    if restoredAt.Some? {
      TouchedExactly(journal, Listed(directory, restoredAt.value, st.rules.Keys, None), Unresolved(st.table), p);
    }
    assert !Mentions(journal, events, p);
    LeftOut(journal, st, events, key, n);
  }

  /** Events that do not mention the prefix change neither rule nor record. */
  lemma LeftOut(journal: Journal, st: Stored, events: seq<Event>, key: Key, n: nat)
    requires !Mentions(journal, events, journal.prefixOf(key))
    ensures var done, p := if n < |events| then events[..n] else events, journal.prefixOf(key);
            && (key in RulesAfter(st.rules, done) <==> key in st.rules)
            && RuleOf(RulesAfter(st.rules, done), key) == RuleOf(st.rules, key)
            && (p in TableAfter(st.table, done) <==> p in st.table)
  {
    hide RulesAfter, TableAfter;
    var done, p := if n < |events| then events[..n] else events, journal.prefixOf(key);
    assert !Mentions(journal, done, p) by {
      if e :| e in done && PrefixOf(journal, e) == p { assert e in events; }
    }
    NoTransitions(journal, done, key);
    RuleAfter(st.rules, done, key);
    assert PrefixOf(journal, Resolved(p)) == p;
  }

  // ----- starvation -----

  /** The prefixes that a pass can resolve: those of the listed recipients. */
  function Alive(journal: Journal, directory: seq<Candidate>, since: Time, ruled: set<Key>): (alive: set<Prefix>)
    ensures forall p :: p in alive <==> Covers(journal, Listed(directory, since, ruled, None), p)
  {
    set c | c in Listed(directory, since, ruled, None) :: journal.prefixOf(c.key)
  }

  /** How many dead prefixes the table lists before p. */
  function DeadBefore(table: seq<Prefix>, alive: set<Prefix>, p: Prefix): nat {
    if table == [] || table[0] == p then 0
    else (if table[0] in alive then 0 else 1) + DeadBefore(table[1..], alive, p)
  }

  /** Removing living prefixes leaves the dead in front of p where they are; a
      prefix that died in the meantime joins them. */
  lemma {:induction false} RemoveKeepsDead(table: seq<Prefix>, alive: set<Prefix>, p: Prefix, q: Prefix)
    requires q in alive && q != p
    ensures DeadBefore(Remove(table, q), alive, p) == DeadBefore(table, alive, p)
  {
    if table != [] && table[0] != p {
      RemoveKeepsDead(table[1..], alive, p, q);
      if table[0] != q { assert Remove(table, q)[1..] == Remove(table[1..], q); }
    }
  }

  lemma {:induction false} ResolvingKeepsDead(table: seq<Prefix>, events: seq<Event>, alive: set<Prefix>, p: Prefix)
    requires forall e :: e in events && e.Resolved? ==> e.prefix in alive && e.prefix != p
    ensures DeadBefore(TableAfter(table, events), alive, p) == DeadBefore(table, alive, p)
  {
    if events != [] {
      var before, e := events[..|events| - 1], events[|events| - 1];
      assert e in events && forall x :: x in before ==> x in events;
      ResolvingKeepsDead(table, before, alive, p);
      if e.Resolved? { RemoveKeepsDead(TableAfter(table, before), alive, p, e.prefix); }
    }
  }

  lemma {:induction false} FewerAlive(table: seq<Prefix>, a: set<Prefix>, b: set<Prefix>, p: Prefix)
    requires forall q :: q in table && q in b ==> q in a
    ensures DeadBefore(table, a, p) <= DeadBefore(table, b, p)
    ensures (forall q :: q in table && q in a ==> q in b) ==> DeadBefore(table, a, p) == DeadBefore(table, b, p)
  {
    if table != [] {
      assert table[0] in table && forall q :: q in table[1..] ==> q in table;
      FewerAlive(table[1..], a, b, p);
    }
  }

  /** With n dead prefixes in front, p is not among the first n. */
  lemma {:induction false} DeadInFront(table: seq<Prefix>, alive: set<Prefix>, p: Prefix, n: nat)
    requires n <= DeadBefore(table, alive, p)
    ensures n <= |table| && p !in table[..n]
  {
    if n > 0 {
      DeadInFront(table[1..], alive, p, n - 1);
      assert table[..n] == [table[0]] + table[1..][..n - 1];
    }
  }

  /** And when the first n are all dead and p is behind them, they count. */
  lemma {:induction false} FrontCounts(table: seq<Prefix>, alive: set<Prefix>, p: Prefix, n: nat)
    requires n <= |table| && p !in table[..n] && forall q :: q in table[..n] ==> q !in alive
    ensures n <= DeadBefore(table, alive, p)
  {
    if n > 0 {
      assert table[..n] == [table[0]] + table[1..][..n - 1];
      assert table[0] in table[..n] && forall q :: q in table[1..][..n - 1] ==> q in table[..n];
      FrontCounts(table[1..], alive, p, n - 1);
    }
  }

  /** A pass resolves only living prefixes that it reads. */
  lemma ResolvesAlive(journal: Journal, directory: seq<Candidate>, since: Time, st: Stored, e: Event)
    requires e in PassEvents(journal, directory, Some(since), st.rules.Keys, st.table)
    ensures PrefixOf(journal, e) in Alive(journal, directory, since, st.rules.Keys)
    ensures PrefixOf(journal, e) in Unresolved(st.table)
  {
    hide Events, Unresolved;
    var listed := Listed(directory, since, st.rules.Keys, None);
    assert Mentions(journal, PassEvents(journal, directory, Some(since), st.rules.Keys, st.table), PrefixOf(journal, e));
    TouchedExactly(journal, listed, Unresolved(st.table), PrefixOf(journal, e));
  }

  /** No pass, cut short or not, makes the dead in front of an unread prefix fewer. */
  lemma PassKeepsDead(journal: Journal, directory: seq<Candidate>, since: Time, st: Stored, p: Prefix, n: nat)
    requires p !in Unresolved(st.table)
    ensures var next := Pass(journal, directory, Some(since), st, n);
            && st.rules.Keys <= next.rules.Keys
            && DeadBefore(next.table, Alive(journal, directory, since, st.rules.Keys), p)
               == DeadBefore(st.table, Alive(journal, directory, since, st.rules.Keys), p)
            && DeadBefore(next.table, Alive(journal, directory, since, st.rules.Keys), p)
               <= DeadBefore(next.table, Alive(journal, directory, since, next.rules.Keys), p)
  {
    hide RulesAfter, TableAfter, Events, Unresolved, Alive, DeadBefore;
    var events := PassEvents(journal, directory, Some(since), st.rules.Keys, st.table);
    var done := if n < |events| then events[..n] else events;
    var alive, next := Alive(journal, directory, since, st.rules.Keys), Pass(journal, directory, Some(since), st, n);
    forall k | k in st.rules.Keys ensures k in next.rules.Keys { RuleAfter(st.rules, done, k); }
    forall e | e in done && e.Resolved? ensures e.prefix in alive && e.prefix != p {
      assert e in events;
      ResolvesAlive(journal, directory, since, st, e);
    }
    ResolvingKeepsDead(st.table, done, alive, p);
    FewerListed(journal, directory, since, st.rules.Keys, next.rules.Keys);
    FewerAlive(next.table, alive, Alive(journal, directory, since, next.rules.Keys), p);
  }

  lemma FewerListed(journal: Journal, directory: seq<Candidate>, since: Time, ruled: set<Key>, later: set<Key>)
    requires ruled <= later
    ensures Alive(journal, directory, since, later) <= Alive(journal, directory, since, ruled)
  {
    hide Listed;
    forall p | p in Alive(journal, directory, since, later) ensures p in Alive(journal, directory, since, ruled) {
      var c :| c in Listed(directory, since, later, None) && journal.prefixOf(c.key) == p;
      assert c in Listed(directory, since, ruled, None);
    }
  }

  /** A prefix with a thousand dead ones before it is never read again. */
  lemma {:induction false} Starves(journal: Journal, directory: seq<Candidate>, since: Time, st: Stored,
                                   key: Key, cuts: seq<nat>)
    requires var p := journal.prefixOf(key);
             p in st.table && DeadBefore(st.table, Alive(journal, directory, since, st.rules.Keys), p) >= PREFIXES
    ensures var last := Passes(journal, directory, Some(since), st, cuts);
            && journal.prefixOf(key) in last.table
            && (key in last.rules <==> key in st.rules) && RuleOf(last.rules, key) == RuleOf(st.rules, key)
    decreases |cuts|
  {
    hide Pass, Alive, DeadBefore;
    if cuts != [] {
      var p := journal.prefixOf(key);
      DeadInFront(st.table, Alive(journal, directory, since, st.rules.Keys), p, PREFIXES);
      UnreadIsUntouched(journal, directory, Some(since), st, key, cuts[0]);
      PassKeepsDead(journal, directory, since, st, p, cuts[0]);
      Starves(journal, directory, since, Pass(journal, directory, Some(since), st, cuts[0]), key, cuts[1..]);
    }
  }

  function Recorded(table: seq<Prefix>): set<Prefix> {
    set p | p in table
  }

  /** The length of an uninterrupted pass. */
  function Whole(journal: Journal, directory: seq<Candidate>, since: Time, st: Stored): nat {
    |PassEvents(journal, directory, Some(since), st.rules.Keys, st.table)|
  }

  /** A whole pass resolves every living prefix that it reads. */
  lemma WholeResolves(journal: Journal, directory: seq<Candidate>, since: Time, st: Stored, q: Prefix)
    requires DistinctPrefixes(journal, directory)
    requires q in Unresolved(st.table) && q in Alive(journal, directory, since, st.rules.Keys)
    ensures q in st.table
    ensures q !in Pass(journal, directory, Some(since), st, Whole(journal, directory, since, st)).table
  {
    hide RulesAfter, TableAfter, Events, Listed;
    var c :| c in Listed(directory, since, st.rules.Keys, None) && journal.prefixOf(c.key) == q;
    PassReapplies(journal, directory, since, st.rules, st.table, c);
  }

  /** So whoever has a rule after it is no longer recorded, and the prefixes that
      are still recorded live on. */
  lemma WholeKeepsAlive(journal: Journal, directory: seq<Candidate>, since: Time, st: Stored, q: Prefix)
    requires DistinctPrefixes(journal, directory) && q in Alive(journal, directory, since, st.rules.Keys)
    requires q in Pass(journal, directory, Some(since), st, Whole(journal, directory, since, st)).table
    ensures var next := Pass(journal, directory, Some(since), st, Whole(journal, directory, since, st));
            q in Alive(journal, directory, since, next.rules.Keys)
  {
    hide RulesAfter, TableAfter, Events, Unresolved, Listed;
    var n := Whole(journal, directory, since, st);
    var c :| c in Listed(directory, since, st.rules.Keys, None) && journal.prefixOf(c.key) == q;
    if q in Unresolved(st.table) {
      WholeResolves(journal, directory, since, st, q);
    } else {
      UnreadIsUntouched(journal, directory, Some(since), st, c.key, n);
    }
    assert c in Listed(directory, since, Pass(journal, directory, Some(since), st, n).rules.Keys, None);
  }

  lemma WholeKeepsDead(journal: Journal, directory: seq<Candidate>, since: Time, st: Stored, p: Prefix)
    requires DistinctPrefixes(journal, directory) && p !in Unresolved(st.table)
    ensures var next := Pass(journal, directory, Some(since), st, Whole(journal, directory, since, st));
            DeadBefore(next.table, Alive(journal, directory, since, next.rules.Keys), p)
            == DeadBefore(st.table, Alive(journal, directory, since, st.rules.Keys), p)
  {
    hide Pass, Whole, Alive, DeadBefore, Unresolved;
    var n := Whole(journal, directory, since, st);
    var alive, next := Alive(journal, directory, since, st.rules.Keys), Pass(journal, directory, Some(since), st, n);
    var later := Alive(journal, directory, since, next.rules.Keys);
    PassKeepsDead(journal, directory, since, st, p, n);
    FewerListed(journal, directory, since, st.rules.Keys, next.rules.Keys);
    forall q | q in next.table && q in alive ensures q in later {
      WholeKeepsAlive(journal, directory, since, st, q);
    }
    FewerAlive(next.table, later, alive, p);
  }

  lemma TablesShrink(journal: Journal, directory: seq<Candidate>, since: Time, st: Stored, n: nat)
    ensures forall q :: q in Pass(journal, directory, Some(since), st, n).table ==> q in st.table
  {
  }

  lemma SomeoneAlive(table: seq<Prefix>, alive: set<Prefix>, p: Prefix) returns (q: Prefix)
    requires p in table && p !in Unresolved(table) && DeadBefore(table, alive, p) < PREFIXES
    ensures q in Unresolved(table) && q in alive
  {
    if forall x :: x in table[..PREFIXES] ==> x !in alive {
      FrontCounts(table, alive, p, PREFIXES);
      assert false;
    }
    q :| q in table[..PREFIXES] && q in alive;
  }

  /** With fewer dead prefixes before it, whole passes reach p: each of them
      resolves a living one until p is read. */
  lemma {:induction false} Reaches(journal: Journal, directory: seq<Candidate>, since: Time, st: Stored, c: Candidate)
    returns (cuts: seq<nat>)
    requires DistinctPrefixes(journal, directory) && c in Listed(directory, since, st.rules.Keys, None)
    requires var p := journal.prefixOf(c.key);
             p in st.table && DeadBefore(st.table, Alive(journal, directory, since, st.rules.Keys), p) < PREFIXES
    ensures var last, p := Passes(journal, directory, Some(since), st, cuts), journal.prefixOf(c.key);
            p !in last.table && RuleOf(last.rules, c.key) == ReplayAll(NO_RULE, journal.transitions(p))
    decreases Recorded(st.table)
  {
    hide RulesAfter, TableAfter, Events, Alive, DeadBefore, Listed, ReplayAll;
    var p, n := journal.prefixOf(c.key), Whole(journal, directory, since, st);
    var alive, next := Alive(journal, directory, since, st.rules.Keys), Pass(journal, directory, Some(since), st, n);
    if p in Unresolved(st.table) {
      PassReapplies(journal, directory, since, st.rules, st.table, c);
      cuts := [n];
      assert Passes(journal, directory, Some(since), st, cuts) == Passes(journal, directory, Some(since), next, cuts[1..]);
    } else {
      var q := SomeoneAlive(st.table, alive, p);
      WholeResolves(journal, directory, since, st, q);
      UnreadIsUntouched(journal, directory, Some(since), st, c.key, n);
      WholeKeepsDead(journal, directory, since, st, p);
      assert Recorded(next.table) < Recorded(st.table) by {
        TablesShrink(journal, directory, since, st, n);
        assert q in Recorded(st.table) && q !in Recorded(next.table);
      }
      assert c in Listed(directory, since, next.rules.Keys, None);
      var rest := Reaches(journal, directory, since, next, c);
      cuts := [n] + rest;
      assert cuts[1..] == rest;
    }
  }

  /** The exact condition under which some passes, cut short or not, resolve the
      prefix of a recipient projected since the restore: it has no rule yet and
      fewer than a thousand dead prefixes are recorded before its own. */
  lemma RecoveredEventuallyIff(journal: Journal, directory: seq<Candidate>, since: Time, st: Stored, c: Candidate)
    requires DistinctPrefixes(journal, directory) && c in directory && since <= c.projectedAt
    requires journal.prefixOf(c.key) in st.table
    ensures var p := journal.prefixOf(c.key);
            (exists cuts :: p !in Passes(journal, directory, Some(since), st, cuts).table)
            <==> c.key !in st.rules && DeadBefore(st.table, Alive(journal, directory, since, st.rules.Keys), p) < PREFIXES
    ensures var p := journal.prefixOf(c.key);
            c.key !in st.rules && DeadBefore(st.table, Alive(journal, directory, since, st.rules.Keys), p) < PREFIXES
            ==> exists cuts :: var last := Passes(journal, directory, Some(since), st, cuts);
                  p !in last.table && RuleOf(last.rules, c.key) == ReplayAll(NO_RULE, journal.transitions(p))
  {
    hide Passes, Alive, DeadBefore, Listed, RuleOf, ReplayAll;
    var p := journal.prefixOf(c.key);
    if cuts :| p !in Passes(journal, directory, Some(since), st, cuts).table {
      if c.key in st.rules {
        InterruptedIsStuck(journal, directory, Some(since), st, c, cuts);
      } else if DeadBefore(st.table, Alive(journal, directory, since, st.rules.Keys), p) >= PREFIXES {
        Starves(journal, directory, since, st, c.key, cuts);
      }
    }
    if c.key !in st.rules && DeadBefore(st.table, Alive(journal, directory, since, st.rules.Keys), p) < PREFIXES {
      assert c in Listed(directory, since, st.rules.Keys, None);
      var cuts := Reaches(journal, directory, since, st, c);
    }
  }

  /** While the first thousand recorded prefixes belong to no listed recipient, no
      number of passes changes anything. */
  lemma {:induction false} FrontBlocks(journal: Journal, directory: seq<Candidate>, since: Time, st: Stored, cuts: seq<nat>)
    requires forall p :: p in Unresolved(st.table) ==> !Covers(journal, Listed(directory, since, st.rules.Keys, None), p)
    ensures Passes(journal, directory, Some(since), st, cuts) == st
    decreases |cuts|
  {
    hide Events, Unresolved, Listed;
    if cuts != [] {
      var events := PassEvents(journal, directory, Some(since), st.rules.Keys, st.table);
      if events != [] {
        assert Mentions(journal, events, PrefixOf(journal, events[0]));
        TouchedExactly(journal, Listed(directory, since, st.rules.Keys, None), Unresolved(st.table), PrefixOf(journal, events[0]));
      }
      FrontBlocks(journal, directory, since, st, cuts[1..]);
    }
  }

  const TWICE_EXCLUDED := [Transition(1, true, 1, None), Transition(2, false, 2, None), Transition(3, true, 3, None)]

  function OneRecipient(): Journal {
    Journal(key => key, prefix => TWICE_EXCLUDED)
  }

  /** The loss is not harmless: a recipient excluded, admitted and excluded again,
      whose recovery stops before the third replay, stays admitted, although the
      journal's newest change excludes it. */
  lemma InterruptedRecoveryAdmits(cuts: seq<nat>)
    ensures var directory := [Candidate(7, 9)];
            var crashed := Pass(OneRecipient(), directory, Some(5), Stored(map[], [7]), 2);
            var last := Passes(OneRecipient(), directory, Some(5), crashed, cuts);
            && ReplayAll(NO_RULE, OneRecipient().transitions(7)).excluded
            && 7 in last.rules && !last.rules[7].excluded && 7 in last.table
  {
    var ts, directory := TWICE_EXCLUDED, [Candidate(7, 9)];
    var events := PassEvents(OneRecipient(), directory, Some(5), {}, [7]);
    assert Listed(directory, 5, {}, None) == directory by { assert directory[1..] == []; }
    assert Unresolved([7]) == {7};
    var two := [Reapplied(7, ts[0]), Reapplied(7, ts[1])];
    assert events[..2] == two;
    var crashed := Pass(OneRecipient(), directory, Some(5), Stored(map[], [7]), 2);
    assert two[..1] == [Reapplied(7, ts[0])] && two[..1][..0] == [];
    assert RulesAfter(map[], two[..1]) == map[7 := Adopt(NO_RULE, ts[0])];
    assert crashed.rules[7] == Adopt(Adopt(NO_RULE, ts[0]), ts[1]);
    ReplayEndsWithNewest(NO_RULE, ts);
    InterruptedIsStuck(OneRecipient(), directory, Some(5), crashed, directory[0], cuts);
  }

  /** A thousand and one recorded prefixes, of which the last is a listed one. */
  function LongTable(): seq<Prefix> {
    seq(PREFIXES + 1, i => i)
  }

  /** Without any crash, the recipient behind a thousand prefixes that nobody is
      projected for any more stays admitted although its journal excludes it. */
  lemma DeadPrefixesStarve(cuts: seq<nat>)
    ensures var st := Stored(map[], LongTable());
            && ReplayAll(NO_RULE, OneRecipient().transitions(PREFIXES)).excluded
            && Passes(OneRecipient(), [Candidate(PREFIXES, 9)], Some(5), st, cuts) == st
            && PREFIXES in st.table && !RuleOf(st.rules, PREFIXES).excluded
  {
    var table, directory := LongTable(), [Candidate(PREFIXES, 9)];
    assert table[PREFIXES] == PREFIXES;
    forall p | p in Unresolved(table)
      ensures !Covers(OneRecipient(), Listed(directory, 5, {}, None), p)
    {
      assert p < PREFIXES;
    }
    ReplayEndsWithNewest(NO_RULE, TWICE_EXCLUDED);
    FrontBlocks(OneRecipient(), directory, 5, Stored(map[], table), cuts);
  }
}
