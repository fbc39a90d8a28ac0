/**
 * The bucket as the C program holds it: four globals updated in place, the
 * storage being a fixed array of seven words. Each method performs the
 * transition the function of the same name in BucketSpec describes, and
 * keeps the consistency invariant `BucketSpec.Valid`.
 */
module BucketImpl {
  import opened BucketSpec

  /** A `word` variable of the caller whose address is passed as `payloadRef`. */
  class WordCell {
    var value: word

    constructor (v: word)
      ensures value == v
    {
      value := v;
    }
  }

  /** The globals `bucket`, `bucketItemQty`, `diffAccessor` and `bucketNewPayload`. */
  class Bucket {
    const bucket: array<word>
    var itemQty: nat
    var diffAccessor: nat
    var newPayload: word

    /** The value the globals currently hold. */
    ghost function State(): BucketState
      reads this, bucket
    {
      BucketState(bucket[..], itemQty, diffAccessor, newPayload)
    }

    /**
     * The invariant every reachable state satisfies: counters within
     * `diffAccessor <= bucketItemQty <= bucketSize`, and the live entries
     * the consecutive payloads that `printBucket` expects.
     */
    ghost predicate Valid()
      reads this, bucket
    {
      BucketSpec.Valid(State())
    }

    /** The static initialisation: zeroed storage, no entry, next payload 1. */
    constructor ()
      ensures Valid() && fresh(bucket)
      ensures State() == BucketState(seq(BucketSize, _ => 0), 0, 0, 1)
    {
      bucket := new word[BucketSize](_ => 0);
      itemQty := 0;
      diffAccessor := 0;
      newPayload := 1;
    }

    /** `flushBucket` */
    method FlushBucket()
      requires Valid()
      modifies this
      ensures Valid()
      ensures State() == BucketSpec.FlushBucket(old(State()))
    {
      itemQty := 0;
      diffAccessor := 0;
    }

    /** `initBucket` */
    method InitBucket()
      requires Valid()
      modifies this
      ensures Valid()
      ensures State() == BucketSpec.InitBucket(old(State()))
    {
      FlushBucket();
      newPayload := 1;
    }

    /**
     * `addItemInBucket`: the `memmove` is a copy from the highest index down,
     * which is what makes the overlapping move safe.
     */
    method AddItemInBucket()
      requires Valid()
      modifies this, bucket
      ensures Valid()
      ensures State() == BucketSpec.AddItemInBucket(old(State()))
    {
      ghost var h := State();
      var m := if itemQty == BucketSize then BucketSize - 1 else itemQty;
      assert m == Moved(h);
      var i := m;
      while i > 0
        modifies bucket
        invariant 0 <= i <= m
        invariant forall j :: 0 <= j <= i ==> bucket[j] == h.slots[j]
        invariant forall j :: i < j <= m ==> bucket[j] == h.slots[j - 1]
        invariant forall j :: m < j < BucketSize ==> bucket[j] == h.slots[j]
      {
        bucket[i] := bucket[i - 1];
        i := i - 1;
      }
      bucket[0] := newPayload;
      newPayload := ToWord(newPayload + 1);
      if itemQty < BucketSize {
        itemQty := itemQty + 1;
      }
      if diffAccessor < BucketSize {
        diffAccessor := diffAccessor + 1;
      }
      ghost var r := State();
      assert forall j :: 0 < j <= m ==> r.slots[j] == h.slots[j - 1];
      assert forall j :: m < j < BucketSize ==> r.slots[j] == h.slots[j];
      AddItemDetermined(h, r);
    }

    /** `initDifferentialAccessor` */
    method InitDifferentialAccessor()
      requires Valid()
      modifies this
      ensures Valid()
      ensures State() == BucketSpec.InitDifferentialAccessor(old(State()))
    {
      diffAccessor := itemQty;
    }

    /**
     * `getFromDifferentialAccessor`: a null `payloadRef` is the NULL pointer;
     * the result is TRUE exactly when `ok` is.
     */
    method GetFromDifferentialAccessor(payloadRef: WordCell?) returns (ok: bool)
      requires Valid()
      modifies this, payloadRef
      ensures Valid()
      ensures var r := BucketSpec.GetFromDifferentialAccessor(
                old(State()), if payloadRef == null then Null else Ptr(old(payloadRef.value)));
              ok == r.ok && State() == r.state &&
              (payloadRef != null ==> r.ref == Ptr(payloadRef.value))
    {
      if diffAccessor > 0 && itemQty > 0 {
        if payloadRef != null {
          diffAccessor := diffAccessor - 1;
          payloadRef.value := bucket[diffAccessor];
        }
        return true;
      }
      return false;
    }
  }
}
