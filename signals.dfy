/**
 * `invalidate_salesrecord_api_cache` (sales/apps/sales/signals.py): after
 * every save and every delete of a sales record, the cached pages of both
 * list endpoints are evicted from the shared cache, the records list first
 * and the aggregation second. A failing cache backend is reported and
 * otherwise ignored: the save or delete itself stands.
 */
module Signals {
  import opened Wrappers
  import opened Text
  import opened ResponseCache
  import opened SalesRecords

  /** The cache key prefixes of the two list endpoints (the `key_prefix` of their `cache_page`). */
  const RecordListNamespace: string := "api_salesrecord_list"
  const AggregateListNamespace: string := "api_salesdataaggregate_list"

  /** `'*api_salesrecord_list*'` and `'*api_salesdataaggregate_list*'`. */
  const RecordListPattern: string := "*" + RecordListNamespace + "*"
  const AggregateListPattern: string := "*" + AggregateListNamespace + "*"

  /**
   * Where the cache backend raises, if it does: nowhere, on the first
   * `delete_pattern` call or on the second. A call that raises removes
   * nothing, and once one raises the rest of the `try` block is skipped.
   */
  datatype BackendFailure = NoFailure | FirstDeleteFails | SecondDeleteFails

  /** The cache the handler leaves behind. */
  function Invalidated(entries: map<string, Entry>, failure: BackendFailure): map<string, Entry>
  {
    match failure
    case NoFailure => Evict(Evict(entries, RecordListPattern), AggregateListPattern)
    case FirstDeleteFails => entries
    case SecondDeleteFails => Evict(entries, RecordListPattern)
  }

  /**
   * The handler: two pattern evictions inside `try`; an exception is caught,
   * printed and not raised again (`failed` says whether one was caught).
   */
  method InvalidateSalesRecordApiCache(cache: Cache, failure: BackendFailure) returns (failed: bool)
    modifies cache
    ensures cache.entries == Invalidated(old(cache.entries), failure)
    ensures failed <==> failure != NoFailure
  {
    if failure == FirstDeleteFails {
      return true;
    }
    var _ := cache.DeletePattern(RecordListPattern);
    if failure == SecondDeleteFails {
      return true;
    }
    var _ := cache.DeletePattern(AggregateListPattern);
    failed := false;
  }

  lemma NamespacesLiteral()
    ensures Literal(RecordListNamespace) && Literal(AggregateListNamespace)
  {
  }

  /**
   * After a run without backend failure the cache holds exactly the keys that
   * contain neither namespace, each with its value unchanged.
   */
  lemma {:induction false} InvalidatedExactly(entries: map<string, Entry>)
    ensures var m := Invalidated(entries, NoFailure);
      && (forall k :: k in m <==> k in entries && !Contains(k, RecordListNamespace) && !Contains(k, AggregateListNamespace))
      && (forall k :: k in m ==> m[k] == entries[k])
  {
    NamespacesLiteral();
    forall k
      ensures GlobMatch(RecordListPattern, k) <==> Contains(k, RecordListNamespace)
      ensures GlobMatch(AggregateListPattern, k) <==> Contains(k, AggregateListNamespace)
    {
      InfixPattern(RecordListNamespace, k);
      InfixPattern(AggregateListNamespace, k);
    }
  }

  /**
   * Whatever the backend does, the handler only removes keys, and only keys
   * holding a namespace: a key outside both namespaces keeps its value.
   */
  lemma {:induction false} InvalidatedOnlyRemovesNamespaces(entries: map<string, Entry>, failure: BackendFailure)
    ensures var m := Invalidated(entries, failure);
      && (forall k :: k in m ==> k in entries && m[k] == entries[k])
      && (forall k :: k in entries && !Contains(k, RecordListNamespace) && !Contains(k, AggregateListNamespace) ==> k in m)
  {
    NamespacesLiteral();
    forall k
      ensures GlobMatch(RecordListPattern, k) <==> Contains(k, RecordListNamespace)
      ensures GlobMatch(AggregateListPattern, k) <==> Contains(k, AggregateListNamespace)
    {
      InfixPattern(RecordListNamespace, k);
      InfixPattern(AggregateListNamespace, k);
    }
  }

  /** Running the handler twice leaves the cache as running it once does. */
  lemma InvalidatedIdempotent(entries: map<string, Entry>)
    ensures Invalidated(Invalidated(entries, NoFailure), NoFailure) == Invalidated(entries, NoFailure)
  {
    var once := Invalidated(entries, NoFailure);
    assert Invalidated(once, NoFailure).Keys == once.Keys;
  }

  /** The two evictions could run in the other order with the same result. */
  lemma InvalidatedOrderIrrelevant(entries: map<string, Entry>)
    ensures Invalidated(entries, NoFailure) == Evict(Evict(entries, AggregateListPattern), RecordListPattern)
  {
    EvictCommutes(entries, RecordListPattern, AggregateListPattern);
  }

  /** `post_save`: the record is saved, then the handler runs. */
  method SaveRecord(record: SalesRecord, assignedPk: int, cache: Cache, failure: BackendFailure)
    returns (failed: bool)
    modifies record, cache
    ensures record.productSnapshot == if CapturesOnSave(old(record.pk), old(record.product))
                                      then CaptureSnapshot(old(record.product).value)
                                      else old(record.productSnapshot)
    ensures record.pk == if old(record.pk).None? then Some(assignedPk) else old(record.pk)
    ensures record.product == old(record.product) && record.quantitySold == old(record.quantitySold)
    ensures record.totalSalesAmount == old(record.totalSalesAmount) && record.dateOfSale == old(record.dateOfSale)
    ensures cache.entries == Invalidated(old(cache.entries), failure)
    ensures failed <==> failure != NoFailure
  {
    record.Save(assignedPk);
    failed := InvalidateSalesRecordApiCache(cache, failure);
  }

  /** `post_delete`: the record is deleted, then the handler runs. */
  method DeleteRecord(record: SalesRecord, cache: Cache, failure: BackendFailure)
    returns (deleted: bool, failed: bool)
    modifies record, cache
    ensures deleted <==> old(record.pk).Some?
    ensures record.pk == None
    ensures cache.entries == if deleted then Invalidated(old(cache.entries), failure) else old(cache.entries)
    ensures failed <==> deleted && failure != NoFailure
  {
    deleted := record.Delete();
    if deleted {
      failed := InvalidateSalesRecordApiCache(cache, failure);
    } else {
      failed := false;
    }
  }
}
