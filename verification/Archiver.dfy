/**
 * The capped audit collection of the archiver (`linux_net/worker/archiver.py`, `_write_to_mongo`
 * and `_prune_collection_by_count`), with exact document counts.
 */
module Archiver {
  import opened Types

  type Id = nat
  type Time = int

  // `find().sort("created_at").limit(n)`: n records none of which is newer than one left out.
  ghost predicate Oldest(docs: map<Id, Time>, chosen: set<Id>, n: nat) {
    && chosen <= docs.Keys && |chosen| == n
    && forall a, b :: a in chosen && b in docs && b !in chosen ==> docs[a] <= docs[b]
  }

  // How far the collection is over its cap; negative below it.
  function Excess(docs: map<Id, Time>, cap: int): int {
    |docs| - cap
  }

  // What a write of one record may leave: the record added and the oldest ones, as many as the
  // overage and the batch allow, removed, unless pruning is off or fails.
  ghost predicate Wrote(before: map<Id, Time>, id: Id, time: Time, cap: int, batch: int, prunes: bool, after: map<Id, Time>) {
    var full := before[id := time];
    var overage := Excess(full, cap);
    if !prunes || cap <= 0 || batch <= 0 || overage <= 0 then after == full
    else exists chosen :: Oldest(full, chosen, Min(overage, batch)) && after == full - chosen
  }

  class Collection {
    var docs: map<Id, Time>

    constructor ()
      ensures docs == map[]
    {
      docs := map[];
    }

    // `_prune_collection_by_count`.  The server answers the query with `found`, or fails.
    method Prune(cap: int, batch: int, works: bool, found: set<Id>)
      requires cap > 0 && batch > 0 && |docs| > cap ==> Oldest(docs, found, Min(|docs| - cap, batch))
      modifies this
      ensures docs == if cap <= 0 || batch <= 0 || !works || |old(docs)| <= cap
                      then old(docs) else old(docs) - found
    {
      if cap <= 0 || batch <= 0 {
        return;
      }
      if !works {
        return;
      }
      var overage := |docs| - cap;
      if overage <= 0 {
        return;
      }
      if found != {} {
        docs := docs - found;
      }
    }

    // `_write_to_mongo`; only the main collection is capped.
    method Write(id: Id, time: Time, main: bool, cap: int, batch: int, works: bool, found: set<Id>)
      requires id !in docs
      requires cap > 0 && batch > 0 && Excess(docs[id := time], cap) > 0 ==>
                 Oldest(docs[id := time], found, Min(Excess(docs[id := time], cap), batch))
      modifies this
      ensures Wrote(old(docs), id, time, cap, batch, main && works, docs)
    {
      docs := docs[id := time];
      if main {
        Prune(cap, batch, works, found);
      }
    }
  }

  // ---------- Counts ----------

  lemma RemovedCount(docs: map<Id, Time>, chosen: set<Id>)
    requires chosen <= docs.Keys
    ensures |docs - chosen| == |docs| - |chosen|
  {
    assert (docs - chosen).Keys == docs.Keys - chosen;
    assert |docs.Keys - chosen| == |docs.Keys| - |chosen|;
    assert |docs| == |docs.Keys| && |docs - chosen| == |(docs - chosen).Keys|;
  }

  // One write of a new record: the excess grows by one and shrinks by a batch, not below the cap.
  lemma AddedCount(docs: map<Id, Time>, id: Id, time: Time)
    requires id !in docs
    ensures |docs[id := time]| == |docs| + 1
  {
    assert docs[id := time].Keys == docs.Keys + {id};
    assert |docs[id := time]| == |docs[id := time].Keys| && |docs| == |docs.Keys|;
  }

  lemma ExcessAfterWrite(before: map<Id, Time>, id: Id, time: Time, cap: int, batch: int, prunes: bool, after: map<Id, Time>)
    requires id !in before && Wrote(before, id, time, cap, batch, prunes, after)
    ensures var e := |before| + 1 - cap;
            |after| - cap == if !prunes || cap <= 0 || batch <= 0 || e <= 0 then e else e - Min(e, batch)
  {
    var full := before[id := time];
    AddedCount(before, id, time);
    var overage := Excess(full, cap);
    if prunes && cap > 0 && batch > 0 && overage > 0 {
      var chosen :| Oldest(full, chosen, Min(overage, batch)) && after == full - chosen;
      RemovedCount(full, chosen);
    }
  }

  // ---------- Runs of writes ----------

  datatype Write = Write(id: Id, time: Time, prunes: bool)

  /** The k-th write leads from one state to the next. */
  ghost predicate IsWrite(states: seq<map<Id, Time>>, writes: seq<Write>, cap: int, batch: int, k: nat)
    requires |states| == |writes| + 1 && k < |writes|
  {
    writes[k].id !in states[k]
    && Wrote(states[k], writes[k].id, writes[k].time, cap, batch, writes[k].prunes, states[k + 1])
  }

  ghost predicate IsHistory(states: seq<map<Id, Time>>, writes: seq<Write>, cap: int, batch: int) {
    |states| == |writes| + 1 && forall k: nat :: k < |writes| ==> IsWrite(states, writes, cap, batch, k)
  }

  function Failures(writes: seq<Write>, k: nat): nat
    requires k <= |writes|
  {
    if k == 0 then 0 else Failures(writes, k - 1) + if writes[k - 1].prunes then 0 else 1
  }

  // A product as a repeated sum, which keeps the induction linear.
  function Times(k: nat, n: nat): nat {
    if k == 0 then 0 else Times(k - 1, n) + n
  }

  lemma {:induction false} TimesIsProduct(k: nat, n: nat)
    ensures Times(k, n) == k * n
  {
    if k > 0 {
      TimesIsProduct(k - 1, n);
      assert k * n == (k - 1) * n + n;
    }
  }

  lemma ExcessAfterStep(states: seq<map<Id, Time>>, writes: seq<Write>, cap: int, batch: int, k: nat)
    requires IsHistory(states, writes, cap, batch) && cap > 0 && batch > 0 && 0 < k <= |writes|
    ensures var e := Excess(states[k - 1], cap) + 1;
            Excess(states[k], cap) == if !writes[k - 1].prunes || e <= 0 then e else e - Min(e, batch)
  {
    var w := writes[k - 1];
    assert IsWrite(states, writes, cap, batch, k - 1);
    ExcessAfterWrite(states[k - 1], w.id, w.time, cap, batch, w.prunes, states[k]);
  }

  lemma {:induction false} ExcessShrinksBy(states: seq<map<Id, Time>>, writes: seq<Write>, cap: int, batch: int, k: nat)
    requires IsHistory(states, writes, cap, batch) && cap > 0 && batch > 0 && k <= |writes|
    ensures Excess(states[k], cap) <=
            Max(0, Max(0, Excess(states[0], cap)) - Times(k, batch - 1)) + Times(Failures(writes, k), batch)
  {
    if k > 0 {
      ExcessShrinksBy(states, writes, cap, batch, k - 1);
      ExcessAfterStep(states, writes, cap, batch, k);
    }
  }

  /**
   * From an excess of B, k writes whose pruning works bring the excess down to at most
   * B - k * (batch - 1) or the cap; each failed pruning costs at most one batch.
   */
  lemma ExcessShrinks(states: seq<map<Id, Time>>, writes: seq<Write>, cap: int, batch: int, k: nat)
    requires IsHistory(states, writes, cap, batch) && cap > 0 && batch > 0 && k <= |writes|
    ensures |states[k]| - cap <= Max(0, Max(0, |states[0]| - cap) - k * (batch - 1)) + Failures(writes, k) * batch
  {
    ExcessShrinksBy(states, writes, cap, batch, k);
    TimesIsProduct(k, batch - 1);
    TimesIsProduct(Failures(writes, k), batch);
  }

  /** A collection at or under its cap stays so. */
  lemma CapHolds(states: seq<map<Id, Time>>, writes: seq<Write>, cap: int, batch: int, k: nat)
    requires IsHistory(states, writes, cap, batch) && cap > 0 && batch > 0 && k <= |writes|
    requires Failures(writes, k) == 0
    ensures |states[0]| <= cap ==> |states[k]| <= cap
  {
    ExcessShrinksBy(states, writes, cap, batch, k);
  }

  // Everything held at the start or written in the first k writes.
  function Written(start: map<Id, Time>, writes: seq<Write>, k: nat): map<Id, Time>
    requires k <= |writes|
  {
    if k == 0 then start else Written(start, writes, k - 1)[writes[k - 1].id := writes[k - 1].time]
  }

  // No record still held is older than one that is gone.
  ghost predicate Newest(all: map<Id, Time>, docs: map<Id, Time>) {
    && (forall b :: b in docs ==> b in all && all[b] == docs[b])
    && forall a, b :: a in all && a !in docs && b in docs ==> all[a] <= docs[b]
  }

  // A new record is at least as new as all before it, and its identifier was not used before.
  predicate Follows(all: map<Id, Time>, w: Write) {
    w.id !in all && forall a :: a in all ==> all[a] <= w.time
  }

  ghost predicate InOrder(start: map<Id, Time>, writes: seq<Write>) {
    forall k :: 0 <= k < |writes| ==> Follows(Written(start, writes, k), writes[k])
  }

  lemma WriteKeepsNewest(all: map<Id, Time>, before: map<Id, Time>, w: Write, cap: int, batch: int, after: map<Id, Time>)
    requires Newest(all, before) && Follows(all, w)
    requires Wrote(before, w.id, w.time, cap, batch, w.prunes, after)
    ensures Newest(all[w.id := w.time], after)
  {
    var full := before[w.id := w.time];
    if after != full {
      var chosen :| Oldest(full, chosen, Min(Excess(full, cap), batch)) && after == full - chosen;
      forall a, b | a in all[w.id := w.time] && a !in after && b in after
        ensures all[w.id := w.time][a] <= after[b]
      {
        assert a in full ==> a in chosen;
      }
    }
  }

  /** Over every run of writes in order the survivors are the newest records ever held. */
  lemma {:induction false} SurvivorsAreNewest(states: seq<map<Id, Time>>, writes: seq<Write>, cap: int, batch: int, k: nat)
    requires IsHistory(states, writes, cap, batch) && InOrder(states[0], writes) && k <= |writes|
    ensures Newest(Written(states[0], writes, k), states[k])
  {
    if k > 0 {
      SurvivorsAreNewest(states, writes, cap, batch, k - 1);
      assert Follows(Written(states[0], writes, k - 1), writes[k - 1]);
      assert IsWrite(states, writes, cap, batch, k - 1);
      WriteKeepsNewest(Written(states[0], writes, k - 1), states[k - 1], writes[k - 1], cap, batch, states[k]);
    }
  }
}
