/** What a history of transactions says each key holds, and how that reading moves when
    entries are appended or decided. */
module History {
  import opened Store
  import opened Protocol

  /** The value of k after the committed transactions among the first n entries: the one
      its last writer there left, `None` being "absent". */
  function After(init: map<Key, Value>, log: seq<Entry>, n: nat, k: Key): Option<Value>
    requires n <= |log|
  {
    if n == 0 then Find(init, k)
    else if log[n - 1].outcome.Committed? && k in log[n - 1].wrote then log[n - 1].wrote[k]
    else After(init, log, n - 1, k)
  }

  /** k holds v at position n, and no transaction still undecided before n writes k, so
      this is final. */
  ghost predicate Settled(init: map<Key, Value>, log: seq<Entry>, n: nat, k: Key, v: Option<Value>) {
    && n <= |log|
    && After(init, log, n, k) == v
    && forall i :: 0 <= i < n && log[i].outcome.Open? ==> k !in log[i].wrote
  }

  /** Only the decision on an entry may change; everything settled stays settled. */
  ghost predicate Extends(init: map<Key, Value>, log: seq<Entry>, log': seq<Entry>) {
    && |log| <= |log'|
    && (forall i :: 0 <= i < |log| ==>
          log'[i].caller == log[i].caller && log'[i].seen == log[i].seen && log'[i].wrote == log[i].wrote)
    && forall n, k, v :: Settled(init, log, n, k, v) ==> Settled(init, log', n, k, v)
  }

  lemma {:induction false} AfterSamePrefix(init: map<Key, Value>, log: seq<Entry>, log': seq<Entry>, n: nat, k: Key)
    requires n <= |log| && n <= |log'|
    requires forall i :: 0 <= i < n ==> log[i] == log'[i]
    ensures After(init, log, n, k) == After(init, log', n, k)
  {
    if n > 0 { AfterSamePrefix(init, log, log', n - 1, k); }
  }

  lemma AppendExtends(init: map<Key, Value>, log: seq<Entry>, e: Entry)
    ensures Extends(init, log, log + [e])
    ensures forall k :: After(init, log + [e], |log|, k) == After(init, log, |log|, k)
  {
    var log' := log + [e];
    forall n: nat, k, v | Settled(init, log, n, k, v) ensures Settled(init, log', n, k, v) {
      AfterSamePrefix(init, log, log', n, k);
      assert forall i :: 0 <= i < n ==> log'[i] == log[i];
    }
    forall k ensures After(init, log', |log|, k) == After(init, log, |log|, k) {
      AfterSamePrefix(init, log, log', |log|, k);
    }
  }

  /** Deciding entry m does not move a key that entry m does not write, nor a position at
      or before m. */
  lemma {:induction false} DecideAfter(init: map<Key, Value>, log: seq<Entry>, m: nat, o: Outcome, n: nat, k: Key)
    requires m < |log| && n <= |log| && (log[m].outcome.Open? || log[m].wrote == map[])
    requires n <= m || k !in log[m].wrote || !o.Committed?
    ensures After(init, SetOutcome(log, m, o), n, k) == After(init, log, n, k)
  {
    if n > 0 { DecideAfter(init, log, m, o, n - 1, k); }
  }

  lemma DecideExtends(init: map<Key, Value>, log: seq<Entry>, m: nat, o: Outcome)
    requires m < |log| && (log[m].outcome.Open? || log[m].wrote == map[]) && !o.Open?
    ensures Extends(init, log, SetOutcome(log, m, o))
  {
    var log' := SetOutcome(log, m, o);
    forall n: nat, k, v | Settled(init, log, n, k, v) ensures Settled(init, log', n, k, v) {
      DecideAfter(init, log, m, o, n, k);
    }
  }

  /** A decided writer is the last writer of k when no committed entry behind it writes k. */
  lemma {:induction false} DecideWrites(init: map<Key, Value>, log: seq<Entry>, m: nat, n: nat, k: Key)
    requires m < n <= |log| && log[m].outcome.Open? && k in log[m].wrote
    requires forall j :: m < j < n && log[j].outcome.Committed? ==> k !in log[j].wrote
    ensures After(init, SetOutcome(log, m, Committed), n, k) == log[m].wrote[k]
  {
    if n > m + 1 { DecideWrites(init, log, m, n - 1, k); }
  }
}
