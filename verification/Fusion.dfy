/** Reciprocal Rank Fusion (kaizen_components/evidence.py), with scores as exact reals. */
module Fusion {
  import opened Orders
  import opened Wrappers

  const RRF_K0 := 60

  /** A ranked record: its chunk id, and the rest of the row. */
  datatype Record = Record(id: string, payload: string)

  datatype Entry = Entry(record: Record, score: real)

  type Ranking = seq<Record>

  function Reciprocal(rank: nat): real {
    1.0 / (RRF_K0 + rank + 1) as real
  }

  /** What one list contributes to an id, over the ranks below `upTo`. */
  ghost function ListScore(list: Ranking, upTo: nat, id: string): real
    requires upTo <= |list|
  {
    if upTo == 0 then 0.0
    else ListScore(list, upTo - 1, id) + if list[upTo - 1].id == id then Reciprocal(upTo - 1) else 0.0
  }

  /** The reciprocal-rank sum of an id. */
  ghost function Score(lists: seq<Ranking>, id: string): real {
    if lists == [] then 0.0
    else
      var last := lists[|lists| - 1];
      Score(lists[..|lists| - 1], id) + ListScore(last, |last|, id)
  }

  /** The first record of an id among the ranks below `upTo`. */
  ghost function FirstIn(list: Ranking, upTo: nat, id: string): Option<Record>
    requires upTo <= |list|
  {
    if upTo == 0 then None
    else if FirstIn(list, upTo - 1, id).Some? then FirstIn(list, upTo - 1, id)
    else if list[upTo - 1].id == id then Some(list[upTo - 1])
    else None
  }

  /** The first record of an id, list by list: the one the fused entry keeps. */
  ghost function FirstRecord(lists: seq<Ranking>, id: string): Option<Record> {
    if lists == [] then None
    else
      var front, last := FirstRecord(lists[..|lists| - 1], id), lists[|lists| - 1];
      if front.Some? then front else FirstIn(last, |last|, id)
  }

  lemma {:induction false} FirstInMeaning(list: Ranking, upTo: nat, id: string)
    requires upTo <= |list|
    ensures FirstIn(list, upTo, id).Some? <==> Mentions(list[..upTo], id)
    ensures FirstIn(list, upTo, id).Some? ==> FirstIn(list, upTo, id).value.id == id
  {
    if upTo > 0 {
      FirstInMeaning(list, upTo - 1, id);
      assert list[..upTo] == list[..upTo - 1] + [list[upTo - 1]];
      if Mentions(list[..upTo - 1], id) {
        var r :| r in list[..upTo - 1] && r.id == id;
        assert r in list[..upTo];
      }
      if list[upTo - 1].id == id {
        assert list[upTo - 1] in list[..upTo];
      }
    }
  }

  lemma {:induction false} FirstRecordMeaning(lists: seq<Ranking>, id: string)
    ensures FirstRecord(lists, id).Some? <==> Ranked(lists, id)
  {
    if lists != [] {
      var front, last := lists[..|lists| - 1], lists[|lists| - 1];
      FirstRecordMeaning(front, id);
      FirstInMeaning(last, |last|, id);
      assert last[..|last|] == last;
      assert lists == front + [last];
      if Ranked(front, id) {
        var list :| list in front && Mentions(list, id);
        assert list in lists;
      }
      if Mentions(last, id) {
        assert last in lists;
      }
    }
  }

  /** Rank zero scores one sixty-first, and so on down. */
  lemma ReciprocalValue(rank: nat)
    ensures Reciprocal(rank) * (rank + 61) as real == 1.0
  {
  }

  /** The record kept is the earliest of its id: in the first list that ranks it, at its first rank there. */
  lemma {:induction false} FirstRecordIsEarliest(lists: seq<Ranking>, id: string)
    requires Ranked(lists, id)
    ensures exists a, b | 0 <= a < |lists| && 0 <= b < |lists[a]| ::
              && FirstRecord(lists, id) == Some(lists[a][b]) && lists[a][b].id == id
              && (forall c | 0 <= c < a :: !Mentions(lists[c], id))
              && forall d | 0 <= d < b :: lists[a][d].id != id
  {
    FirstRecordMeaning(lists, id);
    var front, last := lists[..|lists| - 1], lists[|lists| - 1];
    FirstRecordMeaning(front, id);
    if Ranked(front, id) {
      FirstRecordIsEarliest(front, id);
      var a, b :| 0 <= a < |front| && 0 <= b < |front[a]| && FirstRecord(front, id) == Some(front[a][b])
        && front[a][b].id == id && (forall c | 0 <= c < a :: !Mentions(front[c], id))
        && forall d | 0 <= d < b :: front[a][d].id != id;
      assert lists[a] == front[a] && forall c | 0 <= c < a :: lists[c] == front[c];
    } else {
      var b := FirstInEarliest(last, |last|, id);
      forall c | 0 <= c < |front|
        ensures !Mentions(lists[c], id)
      {
        assert front[c] in front;
      }
      assert lists[|lists| - 1] == last;
    }
  }

  lemma {:induction false} FirstInEarliest(list: Ranking, upTo: nat, id: string) returns (b: nat)
    requires upTo <= |list| && FirstIn(list, upTo, id).Some?
    ensures b < upTo && FirstIn(list, upTo, id) == Some(list[b]) && list[b].id == id
    ensures forall d | 0 <= d < b :: list[d].id != id
  {
    if FirstIn(list, upTo - 1, id).Some? {
      b := FirstInEarliest(list, upTo - 1, id);
    } else {
      b := upTo - 1;
      FirstInMeaning(list, upTo - 1, id);
      forall d | 0 <= d < b
        ensures list[d].id != id
      {
        assert list[..upTo - 1][d] == list[d];
      }
    }
  }

  /** Better scores first, and ids in order among equals. */
  lemma FusionRanks(lists: seq<Ranking>, out: seq<Entry>, i: nat, j: nat)
    requires IsFusion(lists, out) && i < j < |out|
    ensures out[i].score > out[j].score
            || (out[i].score == out[j].score && LexLe(out[i].record.id, out[j].record.id)
                && out[i].record.id != out[j].record.id)
  {
    hide Score, FirstRecord;
    assert EntryLe(out[i], out[j]);
  }

  /** A score adds up over the lists. */
  lemma {:induction false} ScoreJoined(a: seq<Ranking>, b: seq<Ranking>, id: string)
    ensures Score(a + b, id) == Score(a, id) + Score(b, id)
    decreases |b|
  {
    if b == [] {
      assert a + b == a;
    } else {
      assert (a + b)[..|a + b| - 1] == a + b[..|b| - 1];
      ScoreJoined(a, b[..|b| - 1], id);
    }
  }

  ghost predicate Mentions(list: Ranking, id: string) {
    exists r :: r in list && r.id == id
  }

  ghost predicate Ranked(lists: seq<Ranking>, id: string) {
    exists list :: list in lists && Mentions(list, id)
  }

  /** `(-rrf, id)`. */
  predicate EntryLe(a: Entry, b: Entry) {
    if a.score != b.score then a.score > b.score else LexLe(a.record.id, b.record.id)
  }

  lemma EntryOrder()
    ensures Total(EntryLe) && Transitive(EntryLe)
  {
    forall a: Entry, b: Entry
      ensures EntryLe(a, b) || EntryLe(b, a)
    {
      LexTotal(a.record.id, b.record.id);
    }
    forall a: Entry, b: Entry, c: Entry | EntryLe(a, b) && EntryLe(b, c)
      ensures EntryLe(a, c)
    {
      if a.score == b.score && b.score == c.score {
        LexTransitive(a.record.id, b.record.id, c.record.id);
      }
    }
  }

  // ---- the accumulation ------------------------------------------------------------------------------

  /** The dictionary `fused` after some of the records: every id seen so far, with its score so far. */
  ghost predicate Accumulated(keys: seq<string>, fused: map<string, Entry>) {
    && (forall id :: id in keys <==> id in fused)
    && (forall i, j | 0 <= i < j < |keys| :: keys[i] != keys[j])
    && (forall id | id in fused :: fused[id].record.id == id)
  }

  ghost function ScoreIn(fused: map<string, Entry>, id: string): real {
    if id in fused then fused[id].score else 0.0
  }

  ghost function RecordIn(fused: map<string, Entry>, id: string): Option<Record> {
    if id in fused then Some(fused[id].record) else None
  }

  /** `setdefault` with a zero score, then add the reciprocal rank. */
  function Credited(fused: map<string, Entry>, r: Record, rank: nat): map<string, Entry> {
    var entry := if r.id in fused then fused[r.id] else Entry(r, 0.0);
    fused[r.id := entry.(score := entry.score + Reciprocal(rank))]
  }

  lemma CreditStep(keys: seq<string>, fused: map<string, Entry>, r: Record, rank: nat)
    requires Accumulated(keys, fused)
    ensures Accumulated(if r.id in fused then keys else keys + [r.id], Credited(fused, r, rank))
    ensures forall id :: ScoreIn(Credited(fused, r, rank), id) ==
                         ScoreIn(fused, id) + if r.id == id then Reciprocal(rank) else 0.0
    ensures forall id :: RecordIn(Credited(fused, r, rank), id) ==
                         if RecordIn(fused, id).None? && r.id == id then Some(r) else RecordIn(fused, id)
  {
    hide Reciprocal;
  }

  /** The dictionary after some ranks of one list. */
  ghost predicate FusedUpTo(list: Ranking, rank: nat, fused0: map<string, Entry>, fused: map<string, Entry>)
    requires rank <= |list|
  {
    && (forall id :: ScoreIn(fused, id) == ScoreIn(fused0, id) + ListScore(list, rank, id))
    && (forall id :: RecordIn(fused, id) ==
                     if RecordIn(fused0, id).Some? then RecordIn(fused0, id) else FirstIn(list, rank, id))
  }

  lemma FuseStep(list: Ranking, rank: nat, fused0: map<string, Entry>, keys: seq<string>, fused: map<string, Entry>)
    requires rank < |list| && Accumulated(keys, fused) && FusedUpTo(list, rank, fused0, fused)
    ensures FusedUpTo(list, rank + 1, fused0, Credited(fused, list[rank], rank))
  {
    hide Reciprocal, Credited, ScoreIn, RecordIn, Accumulated;
    var fused' := Credited(fused, list[rank], rank);
    CreditStep(keys, fused, list[rank], rank);
    forall id
      ensures ScoreIn(fused', id) == ScoreIn(fused0, id) + ListScore(list, rank + 1, id)
    {
      assert ScoreIn(fused, id) == ScoreIn(fused0, id) + ListScore(list, rank, id);
    }
    forall id
      ensures RecordIn(fused', id) ==
              if RecordIn(fused0, id).Some? then RecordIn(fused0, id) else FirstIn(list, rank + 1, id)
    {
      assert RecordIn(fused', id) ==
             if RecordIn(fused, id).None? && list[rank].id == id then Some(list[rank]) else RecordIn(fused, id);
    }
  }

  method FuseList(list: Ranking, keys0: seq<string>, fused0: map<string, Entry>)
    returns (keys: seq<string>, fused: map<string, Entry>)
    requires Accumulated(keys0, fused0)
    ensures Accumulated(keys, fused) && FusedUpTo(list, |list|, fused0, fused)
  {
    hide Accumulated, FusedUpTo, Credited;
    keys, fused := keys0, fused0;
    NothingFused(list, fused0);
    for rank := 0 to |list|
      invariant Accumulated(keys, fused) && FusedUpTo(list, rank, fused0, fused)
    {
      var r := list[rank];
      StepKeeps(list, rank, fused0, keys, fused);
      keys := if r.id in fused then keys else keys + [r.id];
      fused := Credited(fused, r, rank);
    }
  }

  lemma NothingFused(list: Ranking, fused: map<string, Entry>)
    ensures FusedUpTo(list, 0, fused, fused)
  {
  }

  lemma StepKeeps(list: Ranking, rank: nat, fused0: map<string, Entry>, keys: seq<string>, fused: map<string, Entry>)
    requires rank < |list| && Accumulated(keys, fused) && FusedUpTo(list, rank, fused0, fused)
    ensures Accumulated(if list[rank].id in fused then keys else keys + [list[rank].id],
                        Credited(fused, list[rank], rank))
    ensures FusedUpTo(list, rank + 1, fused0, Credited(fused, list[rank], rank))
  {
    hide Accumulated, FusedUpTo, Credited, ScoreIn, RecordIn;
    CreditStep(keys, fused, list[rank], rank);
    FuseStep(list, rank, fused0, keys, fused);
  }

  /** The fused list: each ranked id once, with the first record of that id and its reciprocal-rank
      sum, best first and ids breaking ties. */
  ghost predicate IsFusion(lists: seq<Ranking>, out: seq<Entry>) {
    && SortedBy(EntryLe, out)
    && (forall i, j | 0 <= i < j < |out| :: out[i].record.id != out[j].record.id)
    && (forall id :: Ranked(lists, id) <==> Placed(out, id))
    && (forall e | e in out :: e.score == Score(lists, e.record.id)
                               && FirstRecord(lists, e.record.id) == Some(e.record))
  }

  ghost predicate Placed(out: seq<Entry>, id: string) {
    exists e :: e in out && e.record.id == id
  }

  /** `fused.values()` in insertion order. */
  function Values(keys: seq<string>, fused: map<string, Entry>): (r: seq<Entry>)
    requires forall id | id in keys :: id in fused
    ensures |r| == |keys| && forall k | 0 <= k < |keys| :: r[k] == fused[keys[k]]
  {
    seq(|keys|, k requires 0 <= k < |keys| => fused[keys[k]])
  }

  /** `_rrf_fuse`, before the display rounding of the scores. */
  method RrfFuse(lists: seq<Ranking>) returns (out: seq<Entry>)
    ensures IsFusion(lists, out)
  {
    var keys: seq<string>, fused: map<string, Entry> := [], map[];
    assert forall id :: ScoreIn(fused, id) == Score([], id) && RecordIn(fused, id) == FirstRecord([], id);
    hide ScoreIn, RecordIn, ListScore, FirstIn, IsFusion;
    for i := 0 to |lists|
      invariant Accumulated(keys, fused)
      invariant forall id :: ScoreIn(fused, id) == Score(lists[..i], id)
      invariant forall id :: RecordIn(fused, id) == FirstRecord(lists[..i], id)
    {
      assert lists[..i + 1][..i] == lists[..i];
      keys, fused := FuseList(lists[i], keys, fused);
    }
    assert lists[..|lists|] == lists;
    var values := Values(keys, fused);
    out := Sort(EntryLe, values);
    SortedValuesFuse(lists, keys, fused);
  }

  lemma ValuesHold(keys: seq<string>, fused: map<string, Entry>)
    requires Accumulated(keys, fused)
    ensures forall e :: e in Values(keys, fused) <==> e.record.id in fused && e == fused[e.record.id]
    ensures forall i, j | 0 <= i < j < |keys| ::
              Values(keys, fused)[i].record.id != Values(keys, fused)[j].record.id
  {
    var values := Values(keys, fused);
    forall e
      ensures e in values <==> e.record.id in fused && e == fused[e.record.id]
    {
      if e in values {
        var k :| 0 <= k < |values| && values[k] == e;
        assert keys[k] in fused;
      }
      if e.record.id in fused && e == fused[e.record.id] {
        var k :| 0 <= k < |keys| && keys[k] == e.record.id;
        assert values[k] == e;
      }
    }
    forall i, j | 0 <= i < j < |keys|
      ensures values[i].record.id != values[j].record.id
    {
      assert keys[i] in fused && keys[j] in fused;
    }
  }

  lemma SortedValuesFuse(lists: seq<Ranking>, keys: seq<string>, fused: map<string, Entry>)
    requires Accumulated(keys, fused)
    requires forall id :: ScoreIn(fused, id) == Score(lists, id)
    requires forall id :: RecordIn(fused, id) == FirstRecord(lists, id)
    ensures IsFusion(lists, Sort(EntryLe, Values(keys, fused)))
  {
    hide EntryLe, Score, Ranked, Sort, Values, SortedBy, FirstRecord;
    var values := Values(keys, fused);
    var out := Sort(EntryLe, values);
    EntryOrder();
    SortSorts(EntryLe, values);
    SameMembers(out, values);
    ValuesHold(keys, fused);
    DistinctIdsStay(values, out);
    forall id
      ensures Ranked(lists, id) <==> Placed(out, id)
    {
      FirstRecordMeaning(lists, id);
      assert RecordIn(fused, id) == FirstRecord(lists, id);
      if id in fused {
        assert fused[id] in out;
      }
    }
    forall e | e in out
      ensures e.score == Score(lists, e.record.id) && FirstRecord(lists, e.record.id) == Some(e.record)
    {
      assert ScoreIn(fused, e.record.id) == Score(lists, e.record.id);
      assert RecordIn(fused, e.record.id) == FirstRecord(lists, e.record.id);
    }
  }

  ghost function Ids(out: seq<Entry>): (r: seq<string>)
    ensures |r| == |out| && forall k | 0 <= k < |out| :: r[k] == out[k].record.id
  {
    seq(|out|, k requires 0 <= k < |out| => out[k].record.id)
  }

  /** Distinct ids survive a rearrangement. */
  lemma DistinctIdsStay(a: seq<Entry>, b: seq<Entry>)
    requires multiset(a) == multiset(b)
    requires forall i, j | 0 <= i < j < |a| :: a[i].record.id != a[j].record.id
    ensures forall i, j | 0 <= i < j < |b| :: b[i].record.id != b[j].record.id
  {
    SameMembers(a, b);
    forall i, j | 0 <= i < j < |b|
      ensures b[i].record.id != b[j].record.id
    {
      assert b[i] in a && b[j] in a;
      if b[i] == b[j] {
        TwiceInMultiset(b, i, j);
        OnceInMultiset(a, b[i]);
      }
    }
  }

  lemma TwiceInMultiset(b: seq<Entry>, i: nat, j: nat)
    requires i < j < |b| && b[i] == b[j]
    ensures multiset(b)[b[i]] >= 2
  {
    assert b == b[..i] + [b[i]] + b[i + 1..j] + [b[j]] + b[j + 1..];
  }

  lemma {:induction false} OnceInMultiset(a: seq<Entry>, e: Entry)
    requires forall i, j | 0 <= i < j < |a| :: a[i].record.id != a[j].record.id
    ensures multiset(a)[e] <= 1
  {
    if a != [] {
      assert a == [a[0]] + a[1..];
      OnceInMultiset(a[1..], e);
      if a[0] == e {
        assert e !in a[1..];
      }
    }
  }

  // ---- the order of the lists does not matter -----------------------------------------------------

  lemma {:induction false} ScoreWithout(lists: seq<Ranking>, k: nat, id: string)
    requires k < |lists|
    ensures Score(lists, id) ==
            Score(lists[..k] + lists[k + 1..], id) + ListScore(lists[k], |lists[k]|, id)
    decreases |lists|
  {
    var n := |lists| - 1;
    if k == n {
      assert lists[..k] + lists[k + 1..] == lists[..n];
    } else {
      ScoreWithout(lists[..n], k, id);
      var fewer := lists[..k] + lists[k + 1..];
      assert fewer[..n - 1] == lists[..n][..k] + lists[..n][k + 1..];
    }
  }

  lemma WithoutOne<T>(s: seq<T>, k: nat)
    requires k < |s|
    ensures multiset(s[..k] + s[k + 1..]) == multiset(s) - multiset{s[k]}
  {
    assert s == s[..k] + [s[k]] + s[k + 1..];
    assert multiset(s) == multiset(s[..k]) + multiset{s[k]} + multiset(s[k + 1..]);
  }

  lemma {:induction false} ScorePermutation(a: seq<Ranking>, b: seq<Ranking>, id: string)
    requires multiset(a) == multiset(b)
    ensures Score(a, id) == Score(b, id)
    decreases |a|
  {
    if a == [] {
      assert |multiset(b)| == 0;
      assert b == [];
    } else {
      var n := |a| - 1;
      assert a[n] in multiset(b);
      var k :| 0 <= k < |b| && b[k] == a[n];
      ScoreWithout(a, n, id);
      ScoreWithout(b, k, id);
      WithoutOne(a, n);
      WithoutOne(b, k);
      hide Score, ListScore;
      ScorePermutation(a[..n] + a[n + 1..], b[..k] + b[k + 1..], id);
    }
  }

  ghost predicate ScoredDistinct(out: seq<Entry>, score: map<string, real>) {
    && SortedBy(EntryLe, out)
    && (forall i, j | 0 <= i < j < |out| :: out[i].record.id != out[j].record.id)
    && (forall id :: id in score <==> Placed(out, id))
    && (forall e | e in out :: e.record.id in score && e.score == score[e.record.id])
  }

  lemma TailScored(out: seq<Entry>, score: map<string, real>)
    requires ScoredDistinct(out, score) && out != []
    ensures ScoredDistinct(out[1..], score - {out[0].record.id})
  {
    hide EntryLe;
    var rest, less := out[1..], score - {out[0].record.id};
    forall id
      ensures id in less <==> Placed(rest, id)
    {
      TailPlaced(out, id);
    }
    hide Placed;
    forall e | e in rest
      ensures e.record.id in less && e.score == less[e.record.id]
    {
      var k :| 0 <= k < |rest| && rest[k] == e;
      assert out[k + 1] in out;
    }
  }

  lemma TailPlaced(out: seq<Entry>, id: string)
    requires out != [] && forall i, j | 0 <= i < j < |out| :: out[i].record.id != out[j].record.id
    ensures Placed(out[1..], id) <==> Placed(out, id) && id != out[0].record.id
  {
    assert out == [out[0]] + out[1..];
    forall e | e in out[1..]
      ensures e.record.id != out[0].record.id
    {
      var k :| 0 <= k < |out[1..]| && out[1..][k] == e;
      assert out[k + 1] == e;
    }
  }

  lemma SameHead(x: seq<Entry>, y: seq<Entry>, score: map<string, real>)
    requires ScoredDistinct(x, score) && ScoredDistinct(y, score) && x != [] && y != []
    ensures x[0].record.id == y[0].record.id
  {
    assert x[0] in x && y[0] in y;
    assert Placed(x, y[0].record.id) && Placed(y, x[0].record.id);
    var i :| 0 <= i < |x| && x[i].record.id == y[0].record.id;
    var j :| 0 <= j < |y| && y[j].record.id == x[0].record.id;
    assert x[i] in x && y[j] in y;
    assert i == 0 || EntryLe(x[0], x[i]);
    assert j == 0 || EntryLe(y[0], y[j]);
    if i != 0 && j != 0 {
      LexAntisymmetric(x[0].record.id, y[0].record.id);
    }
  }

  lemma {:induction false} ScoresDecideOrder(x: seq<Entry>, y: seq<Entry>, score: map<string, real>)
    requires ScoredDistinct(x, score) && ScoredDistinct(y, score)
    ensures Ids(x) == Ids(y)
    decreases |x|
  {
    hide ScoredDistinct;
    EmptyTogether(x, y, score);
    if x != [] {
      SameHead(x, y, score);
      TailScored(x, score);
      TailScored(y, score);
      ScoresDecideOrder(x[1..], y[1..], score - {x[0].record.id});
      assert Ids(x) == [x[0].record.id] + Ids(x[1..]);
      assert Ids(y) == [y[0].record.id] + Ids(y[1..]);
    }
  }

  lemma EmptyTogether(x: seq<Entry>, y: seq<Entry>, score: map<string, real>)
    requires ScoredDistinct(x, score) && ScoredDistinct(y, score)
    ensures x == [] <==> y == []
  {
    assert x == [] || (x[0] in x && Placed(x, x[0].record.id));
    assert y == [] || (y[0] in y && Placed(y, y[0].record.id));
  }

  ghost function ScoreMap(lists: seq<Ranking>, ids: seq<string>): map<string, real> {
    map id | id in ids :: Score(lists, id)
  }

  lemma FusionScored(lists: seq<Ranking>, out: seq<Entry>, ids: seq<string>)
    requires IsFusion(lists, out) && forall id :: id in ids <==> Ranked(lists, id)
    ensures ScoredDistinct(out, ScoreMap(lists, ids))
  {
    hide EntryLe, Score, Ranked, FirstRecord;
    forall e | e in out
      ensures e.record.id in ScoreMap(lists, ids)
    {
      assert Placed(out, e.record.id);
    }
  }

  /** Fusing the same lists in any order gives the same ids in the same order. */
  lemma FusionOrderIndependent(a: seq<Ranking>, x: seq<Entry>, b: seq<Ranking>, y: seq<Entry>)
    requires multiset(a) == multiset(b) && IsFusion(a, x) && IsFusion(b, y)
    ensures Ids(x) == Ids(y)
  {
    hide Score, FirstRecord, EntryLe;
    SameMembers(a, b);
    var ids := Ids(x);
    forall id
      ensures id in ids <==> Ranked(a, id)
      ensures id in ids <==> Ranked(b, id)
    {
      assert Ranked(a, id) <==> Ranked(b, id);
      if Placed(x, id) {
        var k :| 0 <= k < |x| && x[k].record.id == id;
        assert ids[k] == id;
      }
      if id in ids {
        var k :| 0 <= k < |ids| && ids[k] == id;
        assert x[k] in x;
      }
    }
    FusionScored(a, x, ids);
    FusionScored(b, y, ids);
    forall id | id in ids
      ensures Score(a, id) == Score(b, id)
    {
      ScorePermutation(a, b, id);
    }
    assert ScoreMap(a, ids) == ScoreMap(b, ids);
    ScoresDecideOrder(x, y, ScoreMap(a, ids));
  }

  // ---- dominance -----------------------------------------------------------------------------------

  ghost predicate DistinctIn(list: Ranking) {
    forall i, j | 0 <= i < j < |list| :: list[i].id != list[j].id
  }

  lemma ReciprocalFalls(i: nat, j: nat)
    ensures Reciprocal(i) > 0.0
    ensures i < j ==> Reciprocal(i) > Reciprocal(j)
  {
    var x, y := (RRF_K0 + i + 1) as real, (RRF_K0 + j + 1) as real;
    assert x > 0.0 && y > 0.0;
    if i < j {
      assert x < y;
      assert 1.0 / x - 1.0 / y == (y - x) / (x * y);
    }
  }

  /** With distinct ids a list contributes one reciprocal rank, or nothing. */
  lemma {:induction false} ListScoreValue(list: Ranking, upTo: nat, k: nat, id: string)
    requires upTo <= |list| && DistinctIn(list)
    requires k < |list| ==> list[k].id == id
    requires k >= |list| ==> forall j | 0 <= j < |list| :: list[j].id != id
    ensures ListScore(list, upTo, id) == if k < upTo then Reciprocal(k) else 0.0
  {
    hide Reciprocal;
    if upTo > 0 {
      ListScoreValue(list, upTo - 1, k, id);
    }
  }

  /** `a` stands ahead of `b` in the list. */
  ghost predicate AheadIn(list: Ranking, a: string, b: string) {
    exists i, j :: 0 <= i < j < |list| && list[i].id == a && list[j].id == b
  }

  lemma Position(list: Ranking, id: string) returns (k: nat)
    ensures k < |list| ==> list[k].id == id
    ensures k >= |list| ==> forall j | 0 <= j < |list| :: list[j].id != id
  {
    if exists j :: 0 <= j < |list| && list[j].id == id {
      k :| 0 <= k < |list| && list[k].id == id;
    } else {
      k := |list|;
    }
  }

  lemma ListScoreDominates(list: Ranking, a: string, b: string)
    requires DistinctIn(list) && (Mentions(list, b) ==> AheadIn(list, a, b))
    ensures ListScore(list, |list|, a) >= ListScore(list, |list|, b)
    ensures Mentions(list, b) ==> ListScore(list, |list|, a) > ListScore(list, |list|, b)
  {
    hide Reciprocal;
    var i := Position(list, a);
    var j := Position(list, b);
    assert Mentions(list, b) ==> j < |list|;
    ListScoreValue(list, |list|, i, a);
    ListScoreValue(list, |list|, j, b);
    ReciprocalFalls(i, j);
    if j < |list| {
      assert list[j] in list && Mentions(list, b);
      var p, q :| 0 <= p < q < |list| && list[p].id == a && list[q].id == b;
      assert p == i && q == j;
    }
  }

  lemma {:induction false} ScoreDominates(lists: seq<Ranking>, a: string, b: string)
    requires forall list | list in lists :: DistinctIn(list) && (Mentions(list, b) ==> AheadIn(list, a, b))
    ensures Score(lists, a) >= Score(lists, b)
    ensures Ranked(lists, b) ==> Score(lists, a) > Score(lists, b)
  {
    hide ListScore, Mentions, DistinctIn, AheadIn;
    if lists != [] {
      var front, last := lists[..|lists| - 1], lists[|lists| - 1];
      assert lists == front + [last];
      ScoreDominates(front, a, b);
      ListScoreDominates(last, a, b);
      if Ranked(lists, b) && !Mentions(last, b) {
        var list: Ranking :| list in lists && Mentions(list, b);
        assert list in front;
      }
    }
  }

  /** Where every list that ranks `b` ranks `a` ahead of it, so does the fusion. */
  lemma DominanceKept(lists: seq<Ranking>, out: seq<Entry>, a: string, b: string)
    requires IsFusion(lists, out) && Ranked(lists, b)
    requires forall list | list in lists :: DistinctIn(list) && (Mentions(list, b) ==> AheadIn(list, a, b))
    ensures exists i, j :: 0 <= i < j < |out| && out[i].record.id == a && out[j].record.id == b
  {
    hide Score, FirstRecord;
    ScoreDominates(lists, a, b);
    var list: Ranking :| list in lists && Mentions(list, b);
    var p, q :| 0 <= p < q < |list| && list[p].id == a && list[q].id == b;
    assert list[p] in list && Mentions(list, a) && Ranked(lists, a);
    assert Placed(out, a) && Placed(out, b);
    var i :| 0 <= i < |out| && out[i].record.id == a;
    var j :| 0 <= j < |out| && out[j].record.id == b;
    assert out[i] in out && out[j] in out;
    hide EntryLe;
    BetterFirst(out, i, j);
  }

  lemma BetterFirst(out: seq<Entry>, i: nat, j: nat)
    requires SortedBy(EntryLe, out) && i < |out| && j < |out| && out[i].score > out[j].score
    ensures i < j
  {
    InOrder(out, j, i);
  }

  lemma InOrder(out: seq<Entry>, j: nat, i: nat)
    requires SortedBy(EntryLe, out) && i < |out| && j < |out|
    ensures j < i ==> EntryLe(out[j], out[i])
  {
  }
}
