/**
 * `SubstreamRetriever.read_records` of the declarative connector framework:
 * read every parent record, then for each parent in order yield the records
 * of its sub-response, followed by further pages when the paginator gives a
 * token, each record merged with the additional fields evaluated for that
 * parent.
 */
module Substream {
  import opened Wrappers

  /** A record: a JSON object. */
  type Record<V> = map<string, V>

  datatype SyncMode = FullRefresh | Incremental

  /**
   * The collaborators of the retriever. The HTTP requester, the extractors,
   * the paginator and the interpolated mapping are not part of this model;
   * each is a given function. `nextPages(i)` is what `super().read_records`
   * returns when it is called while parent `i` is processed; the
   * configuration, stream slice and stream state are fixed inside
   * `additionalFields`.
   */
  datatype Retriever<!V, !B> = Retriever(
    parentStream: SyncMode -> seq<Record<V>>,
    parentExtractor: Record<V> -> B,
    extractor: B -> seq<Record<V>>,
    paginator: (B, seq<Record<V>>) -> Option<Record<V>>,
    nextPages: nat -> seq<Record<V>>,
    additionalFields: Record<V> -> Record<V>)

  /** Python truthiness of `next_page_token`: neither None nor an empty mapping. */
  predicate Truthy<V>(token: Option<Record<V>>) {
    token.Some? && token.value != map[]
  }

  /** `record.update(fields)`: the fields' values win, the other keys stay. */
  function Merge<V>(record: Record<V>, fields: Record<V>): (r: Record<V>)
    ensures r.Keys == record.Keys + fields.Keys
    ensures forall k :: k in fields ==> r[k] == fields[k]
    ensures forall k :: k in record && k !in fields ==> r[k] == record[k]
  {
    record + fields
  }

  /** Every record of `rs`, merged with `fields`. */
  function MergeAll<V>(rs: seq<Record<V>>, fields: Record<V>): seq<Record<V>>
  {
    seq(|rs|, k requires 0 <= k < |rs| => Merge(rs[k], fields))
  }

  /** The records of the sub-response of a parent. */
  function FirstPage<V, B>(rt: Retriever<V, B>, parent: Record<V>): seq<Record<V>> {
    rt.extractor(rt.parentExtractor(parent))
  }

  /** Whether the paginator asks for further pages for this parent. */
  predicate HasNextPage<V, B>(rt: Retriever<V, B>, parent: Record<V>) {
    var body := rt.parentExtractor(parent);
    Truthy(rt.paginator(body, rt.extractor(body)))
  }

  /** `next_pages`: the paginated read when there is a token, nothing otherwise. */
  function FurtherPages<V, B>(rt: Retriever<V, B>, parent: Record<V>, i: nat): seq<Record<V>> {
    if HasNextPage(rt, parent) then rt.nextPages(i) else []
  }

  /** What is yielded for parent `i`: `chain(records, next_pages)`, merged. */
  function Block<V, B>(rt: Retriever<V, B>, parent: Record<V>, i: nat): seq<Record<V>> {
    MergeAll(FirstPage(rt, parent) + FurtherPages(rt, parent, i), rt.additionalFields(parent))
  }

  /** The blocks of all parents, in parent order. */
  function Flatten<V, B>(rt: Retriever<V, B>, ps: seq<Record<V>>): seq<Record<V>>
    decreases |ps|
  {
    if ps == [] then [] else Flatten(rt, ps[..|ps| - 1]) + Block(rt, ps[|ps| - 1], |ps| - 1)
  }

  /** The number of records yielded for one parent. */
  function BlockSize<V, B>(rt: Retriever<V, B>, parent: Record<V>, i: nat): nat {
    |FirstPage(rt, parent)| + (if HasNextPage(rt, parent) then |rt.nextPages(i)| else 0)
  }

  /** The sum of the block sizes of the parents in `ps`. */
  function TotalSize<V, B>(rt: Retriever<V, B>, ps: seq<Record<V>>): nat
    decreases |ps|
  {
    if ps == [] then 0 else TotalSize(rt, ps[..|ps| - 1]) + BlockSize(rt, ps[|ps| - 1], |ps| - 1)
  }

  /** One step of the generator: a parent record is read, or a record is yielded. */
  datatype Event<V> = ParentRead(record: Record<V>) | Yielded(record: Record<V>)

  function ReadEvents<V>(ps: seq<Record<V>>): seq<Event<V>>
  {
    seq(|ps|, i requires 0 <= i < |ps| => ParentRead(ps[i]))
  }

  function YieldEvents<V>(rs: seq<Record<V>>): seq<Event<V>>
  {
    seq(|rs|, i requires 0 <= i < |rs| => Yielded(rs[i]))
  }

  lemma YieldEventsAppend<V>(prefix: seq<Event<V>>, a: seq<Record<V>>, b: seq<Record<V>>)
    ensures prefix + YieldEvents(a + b) == prefix + YieldEvents(a) + YieldEvents(b)
  {
    assert YieldEvents(a + b) == YieldEvents(a) + YieldEvents(b);
  }

  /** Taking one more parent adds its block at the end. */
  lemma FlattenStep<V, B>(rt: Retriever<V, B>, ps: seq<Record<V>>, i: nat)
    requires i < |ps|
    ensures Flatten(rt, ps[..i + 1]) == Flatten(rt, ps[..i]) + Block(rt, ps[i], i)
  {
    assert ps[..i + 1][..i] == ps[..i];
  }

  /**
   * The inner loop of `read_records`: for each record of `chain(records,
   * next_pages)`, evaluate the additional fields against the parent, update
   * the record with them and yield it.
   */
  method YieldChained<V, B>(rt: Retriever<V, B>, parentRecord: Record<V>, chained: seq<Record<V>>)
    returns (events: seq<Event<V>>)
    ensures events == YieldEvents(MergeAll(chained, rt.additionalFields(parentRecord)))
  {
    events := [];
    for j := 0 to |chained|
      invariant events == YieldEvents(MergeAll(chained[..j], rt.additionalFields(parentRecord)))
    {
      var evaluatedFields := rt.additionalFields(parentRecord);
      var record := Merge(chained[j], evaluatedFields);
      events := events + [Yielded(record)];
      assert chained[..j + 1] == chained[..j] + [chained[j]];
    }
    assert chained[..|chained|] == chained;
  }

  /** In such a trace no parent record is read after the first record is yielded. */
  lemma ReadsPrecedeYields<V>(ps: seq<Record<V>>, out: seq<Record<V>>)
    ensures var trace := ReadEvents(ps) + YieldEvents(out);
            forall a, b :: 0 <= a < b < |trace| && trace[a].Yielded? ==> trace[b].Yielded?
  {
  }

  /** `[r for r in self._parent_stream.read_records(SyncMode.full_refresh)]`. */
  method ReadParents<V, B>(rt: Retriever<V, B>) returns (parents: seq<Record<V>>, trace: seq<Event<V>>)
    ensures parents == rt.parentStream(FullRefresh)
    ensures trace == ReadEvents(parents)
  {
    var source := rt.parentStream(FullRefresh);
    parents, trace := [], [];
    for n := 0 to |source|
      invariant parents == source[..n]
      invariant trace == ReadEvents(parents)
    {
      parents := parents + [source[n]];
      trace := trace + [ParentRead(source[n])];
    }
    assert source[..|source|] == source;
  }

  /**
   * `read_records`, as the sequence of what it does: first every parent record
   * is read (in full-refresh mode, whatever `syncMode` is), then the records of
   * `Flatten` are yielded one by one.
   */
  method ReadRecords<V, B>(rt: Retriever<V, B>, syncMode: SyncMode) returns (trace: seq<Event<V>>)
    ensures var ps := rt.parentStream(FullRefresh);
            trace == ReadEvents(ps) + YieldEvents(Flatten(rt, ps))
    ensures forall a, b :: 0 <= a < b < |trace| && trace[a].Yielded? ==> trace[b].Yielded?
  {
    var parents;
    parents, trace := ReadParents(rt);
    for i := 0 to |parents|
      invariant trace == ReadEvents(parents) + YieldEvents(Flatten(rt, parents[..i]))
    {
      var parentRecord := parents[i];
      var subResponse := rt.parentExtractor(parentRecord);
      var records := rt.extractor(subResponse);
      var nextPageToken := rt.paginator(subResponse, records);
      var nextPages := if Truthy(nextPageToken) then rt.nextPages(i) else [];
      assert records + nextPages == FirstPage(rt, parentRecord) + FurtherPages(rt, parentRecord, i);
      var events := YieldChained(rt, parentRecord, records + nextPages);
      FlattenStep(rt, parents, i);
      YieldEventsAppend(ReadEvents(parents), Flatten(rt, parents[..i]), Block(rt, parentRecord, i));
      trace := trace + events;
    }
    assert parents[..|parents|] == parents;
    ReadsPrecedeYields(parents, Flatten(rt, parents));
  }

  // ---------------------------------------------------------------------------
  // Properties of the yielded records
  // ---------------------------------------------------------------------------

  /** The number of yielded records is the sum of the block sizes. */
  lemma {:induction false} FlattenLength<V, B>(rt: Retriever<V, B>, ps: seq<Record<V>>)
    ensures |Flatten(rt, ps)| == TotalSize(rt, ps)
    decreases |ps|
  {
    if ps != [] {
      FlattenLength(rt, ps[..|ps| - 1]);
    }
  }

  /**
   * The records of one parent: first-page records first, then the further
   * pages, which exist only when the paginator returned a truthy token; each
   * is merged with the fields evaluated for that parent.
   */
  lemma BlockAt<V, B>(rt: Retriever<V, B>, parent: Record<V>, i: nat, k: nat)
    requires k < |Block(rt, parent, i)|
    ensures |Block(rt, parent, i)| == BlockSize(rt, parent, i)
    ensures k < |FirstPage(rt, parent)| ==>
            Block(rt, parent, i)[k] == Merge(FirstPage(rt, parent)[k], rt.additionalFields(parent))
    ensures k >= |FirstPage(rt, parent)| ==>
            && HasNextPage(rt, parent)
            && Block(rt, parent, i)[k] == Merge(rt.nextPages(i)[k - |FirstPage(rt, parent)|], rt.additionalFields(parent))
  {
  }

  /**
   * Parents are processed in order: the `k`-th record of parent `i` is yielded
   * at position `TotalSize` of the parents before it, plus `k`.
   */
  lemma {:induction false} FlattenAt<V, B>(rt: Retriever<V, B>, ps: seq<Record<V>>, i: nat, k: nat)
    requires i < |ps| && k < BlockSize(rt, ps[i], i)
    ensures TotalSize(rt, ps[..i]) + k < |Flatten(rt, ps)|
    ensures Flatten(rt, ps)[TotalSize(rt, ps[..i]) + k] == Block(rt, ps[i], i)[k]
    decreases |ps|
  {
    var init := ps[..|ps| - 1];
    FlattenLength(rt, init);
    if i == |ps| - 1 {
      assert ps[..i] == init;
    } else {
      assert init[i] == ps[i] && init[..i] == ps[..i];
      FlattenAt(rt, init, i, k);
    }
  }

  /**
   * Every yielded record carries every additional field of some parent, with
   * that parent's evaluated value; `FlattenAt` and `BlockAt` name the parent.
   */
  lemma {:induction false} YieldedCarryParentFields<V, B>(rt: Retriever<V, B>, ps: seq<Record<V>>, j: nat)
    requires j < |Flatten(rt, ps)|
    ensures exists i :: 0 <= i < |ps| &&
              var fields := rt.additionalFields(ps[i]);
              forall key :: key in fields ==> key in Flatten(rt, ps)[j] && Flatten(rt, ps)[j][key] == fields[key]
    decreases |ps|
  {
    var init := ps[..|ps| - 1];
    var n := |Flatten(rt, init)|;
    if j < n {
      YieldedCarryParentFields(rt, init, j);
      var i :| 0 <= i < |init| &&
               var fields := rt.additionalFields(init[i]);
               forall key :: key in fields ==> key in Flatten(rt, init)[j] && Flatten(rt, init)[j][key] == fields[key];
      assert init[i] == ps[i];
      assert Flatten(rt, ps)[j] == Flatten(rt, init)[j];
    } else {
      var last := |ps| - 1;
      assert Flatten(rt, ps)[j] == Block(rt, ps[last], last)[j - n];
    }
  }
}
