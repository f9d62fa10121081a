/**
 Tables of values that can be taken once and only for a while, with old entries purged now and
 then. The specification is the history: what was last done with a key decides the answer.
 An entry carries a stamp, and `alive(stamp, now)` says whether it may still be taken.
 */
module SingleUse {
  import opened Wrappers

  datatype Event<K, V> =
    | Put(key: K, value: V, stamp: int)
    | Take(key: K, now: int)
    | Purge(now: int)

  datatype Entry<V> = Entry(value: V, stamp: int)

  type Table<K, V> = map<K, Entry<V>>

  type Liveness = (int, int) -> bool

  /** Once an entry is out of date it stays so. */
  ghost predicate Fades(alive: Liveness) {
    forall stamp, t, u | t <= u && alive(stamp, u) :: alive(stamp, t)
  }

  // ---------------------------------------------------------------------------------------
  // The table.
  // ---------------------------------------------------------------------------------------

  function Step<K, V>(alive: Liveness, table: Table<K, V>, e: Event<K, V>): Table<K, V> {
    match e
    case Put(key, value, stamp) => table[key := Entry(value, stamp)]
    case Take(key, _) => table - {key}
    case Purge(now) => map k | k in table && alive(table[k].stamp, now) :: table[k]
  }

  function Taken<K, V>(alive: Liveness, table: Table<K, V>, key: K, now: int): Option<V> {
    if key in table && alive(table[key].stamp, now) then Some(table[key].value) else None
  }

  function End<K, V>(alive: Liveness, table: Table<K, V>, events: seq<Event<K, V>>): Table<K, V> {
    if events == [] then table
    else Step(alive, End(alive, table, events[..|events| - 1]), events[|events| - 1])
  }

  // ---------------------------------------------------------------------------------------
  // The specification.
  // ---------------------------------------------------------------------------------------

  predicate Concerns<K(==), V>(e: Event<K, V>, key: K) {
    match e
    case Put(k, _, _) => k == key
    case Take(k, _) => k == key
    case Purge(_) => false
  }

  /** The answer that the past gives: the last event of the key is a put that is still alive. */
  ghost function Answer<K, V>(alive: Liveness, past: seq<Event<K, V>>, key: K, now: int): Option<V> {
    if past == [] then None
    else
      var last := past[|past| - 1];
      if Concerns(last, key) then
        if last.Put? && alive(last.stamp, now) then Some(last.value) else None
      else Answer(alive, past[..|past| - 1], key, now)
  }

  /** Clock readings never go back and none is later than `until`. Puts do not read the clock here:
      the stamp is all that is kept of their time. */
  ghost predicate Timely<K, V>(events: seq<Event<K, V>>, until: int) {
    events == []
    || (var last := events[|events| - 1];
        if last.Put? then Timely(events[..|events| - 1], until)
        else last.now <= until && Timely(events[..|events| - 1], last.now))
  }

  // ---------------------------------------------------------------------------------------
  // The table refines the specification.
  // ---------------------------------------------------------------------------------------

  /** Wherever the purges of a timely history fall, the table answers a take as the past says. */
  lemma {:induction false} TableAnswersHistory<K(!new), V(!new)>(
      alive: Liveness, events: seq<Event<K, V>>, until: int, key: K, now: int)
    requires Fades(alive) && Timely(events, until) && until <= now
    ensures Taken(alive, End(alive, map[], events), key, now) == Answer(alive, events, key, now)
    decreases |events|
  {
    if events != [] {
      var init, last := events[..|events| - 1], events[|events| - 1];
      TableAnswersHistory(alive, init, if last.Put? then until else last.now, key, now);
    }
  }

  // ---------------------------------------------------------------------------------------
  // What the specification promises.
  // ---------------------------------------------------------------------------------------

  function Project<K(==), V>(events: seq<Event<K, V>>, key: K): seq<Event<K, V>> {
    if events == [] then []
    else Project(events[..|events| - 1], key)
         + (if Concerns(events[|events| - 1], key) then [events[|events| - 1]] else [])
  }

  /** Keys are independent, and purges do not matter: the answer for a key needs only the puts and
      takes of that key. */
  lemma {:induction false} KeysAreIndependent<K(!new), V(!new)>(
      alive: Liveness, past: seq<Event<K, V>>, key: K, now: int)
    ensures Answer(alive, past, key, now) == Answer(alive, Project(past, key), key, now)
    decreases |past|
  {
    if past != [] {
      var init, last := past[..|past| - 1], past[|past| - 1];
      KeysAreIndependent(alive, init, key, now);
      if Concerns(last, key) {
        var p := Project(past, key);
        assert p[|p| - 1] == last;
      } else {
        assert Project(past, key) == Project(init, key);
      }
    }
  }

  /** The put at `i` is the last event of its key. */
  ghost predicate LastPut<K(!new), V(!new)>(past: seq<Event<K, V>>, i: nat, key: K) {
    i < |past| && past[i].Put? && past[i].key == key && forall j | i < j < |past| :: !Concerns(past[j], key)
  }

  lemma {:induction false} SuccessNeedsPut<K(!new), V(!new)>(
      alive: Liveness, past: seq<Event<K, V>>, key: K, now: int) returns (i: nat)
    requires Answer(alive, past, key, now).Some?
    ensures LastPut(past, i, key)
    ensures Answer(alive, past, key, now) == Some(past[i].value) && alive(past[i].stamp, now)
    decreases |past|
  {
    var n := |past| - 1;
    if Concerns(past[n], key) { i := n; }
    else { i := SuccessNeedsPut(alive, past[..n], key, now); }
  }

  lemma {:induction false} PutIsAnswered<K(!new), V(!new)>(
      alive: Liveness, past: seq<Event<K, V>>, i: nat, key: K, now: int)
    requires LastPut(past, i, key)
    ensures Answer(alive, past, key, now) == if alive(past[i].stamp, now) then Some(past[i].value) else None
    decreases |past|
  {
    if i < |past| - 1 {
      PutIsAnswered(alive, past[..|past| - 1], i, key, now);
    }
  }

  /** A take succeeds with a value exactly when the last thing done with the key was to put that
      value, and it is still alive. */
  lemma AnswerIff<K(!new), V(!new)>(alive: Liveness, past: seq<Event<K, V>>, key: K, now: int, value: V)
    ensures Answer(alive, past, key, now) == Some(value)
            <==> exists i: nat :: LastPut(past, i, key) && past[i].value == value && alive(past[i].stamp, now)
  {
    if Answer(alive, past, key, now) == Some(value) {
      var i := SuccessNeedsPut(alive, past, key, now);
      assert LastPut(past, i, key);
    }
    forall i: nat | LastPut(past, i, key) && past[i].value == value && alive(past[i].stamp, now)
      ensures Answer(alive, past, key, now) == Some(value)
    {
      PutIsAnswered(alive, past, i, key, now);
    }
  }

  /** Single use: after a take of the key, successful or not, and before a later take at `j`
      succeeds, the key was put again. */
  lemma SingleUseBetweenPuts<K(!new), V(!new)>(
      alive: Liveness, events: seq<Event<K, V>>, i: nat, j: nat) returns (p: nat)
    requires i < j < |events| && events[i].Take? && events[j].Take? && events[i].key == events[j].key
    requires Answer(alive, events[..j], events[j].key, events[j].now).Some?
    ensures i < p < j && events[p].Put? && events[p].key == events[j].key
  {
    p := SuccessNeedsPut(alive, events[..j], events[j].key, events[j].now);
    assert events[..j][i] == events[i];
  }

  lemma AnswerAfterOne<K(!new), V(!new)>(alive: Liveness, past: seq<Event<K, V>>, e: Event<K, V>)
    ensures forall key, now :: Answer(alive, past + [e], key, now) ==
              if !Concerns(e, key) then Answer(alive, past, key, now)
              else if e.Put? && alive(e.stamp, now) then Some(e.value) else None
  {
    assert (past + [e])[..|past|] == past;
  }

  // ---------------------------------------------------------------------------------------
  // Histories put together from pieces.
  // ---------------------------------------------------------------------------------------

  lemma {:induction false} EndAppend<K(!new), V(!new)>(
      alive: Liveness, table: Table<K, V>, first: seq<Event<K, V>>, second: seq<Event<K, V>>)
    ensures End(alive, table, first + second) == End(alive, End(alive, table, first), second)
    decreases |second|
  {
    if second == [] { assert first + second == first; }
    else {
      var n := |second| - 1;
      EndAppend(alive, table, first, second[..n]);
      assert (first + second)[..|first| + n] == first + second[..n];
    }
  }

  lemma {:induction false} ProjectAppend<K(!new), V(!new)>(first: seq<Event<K, V>>, second: seq<Event<K, V>>, key: K)
    ensures Project(first + second, key) == Project(first, key) + Project(second, key)
    decreases |second|
  {
    if second == [] { assert first + second == first; }
    else {
      var n := |second| - 1;
      ProjectAppend(first, second[..n], key);
      assert (first + second)[..|first| + n] == first + second[..n];
    }
  }

  lemma TimelyLonger<K(!new), V(!new)>(events: seq<Event<K, V>>, until: int, e: Event<K, V>, later: int)
    requires Timely(events, until) && (!e.Put? ==> until <= e.now) && until <= later && (!e.Put? ==> e.now <= later)
    ensures Timely(events + [e], later)
  {
    assert (events + [e])[..|events|] == events;
    TimelyLater(events, until, if e.Put? then later else e.now);
  }

  lemma {:induction false} TimelyLater<K(!new), V(!new)>(events: seq<Event<K, V>>, until: int, later: int)
    requires Timely(events, until) && until <= later
    ensures Timely(events, later)
    decreases |events|
  {
    if events != [] && events[|events| - 1].Put? {
      TimelyLater(events[..|events| - 1], until, later);
    }
  }

  lemma TimelyPlus<K(!new), V(!new)>(
      events: seq<Event<K, V>>, until: int, purge: Option<int>, e: Option<Event<K, V>>, later: int)
    requires Timely(events, until) && until <= later
    requires purge.Some? ==> until <= purge.value <= later
    requires e.Some? && !e.value.Put? ==> (if purge.Some? then purge.value else until) <= e.value.now <= later
    ensures var purges := if purge.Some? then [Purge(purge.value)] else [];
            Timely(events + (purges + if e.Some? then [e.value] else []), later)
  {
    var p: seq<Event<K, V>> := if purge.Some? then [Purge(purge.value)] else [];
    var mid := if purge.Some? then purge.value else until;
    if purge.Some? { TimelyLonger(events, until, Purge(purge.value), mid); }
    else { assert events + p == events; }
    if e.Some? {
      TimelyLonger(events + p, mid, e.value, later);
      assert events + (p + [e.value]) == events + p + [e.value];
    } else {
      TimelyLater(events + p, mid, later);
      assert events + (p + []) == events + p;
    }
  }
}
