/** The bucket lists of the parking lot: threads that sleep on the same address share a bucket. */
module ParkingLot {
  import opened Wrappers

  type Addr = nat

  /** A bucket keeps its condition variable for ever, so its number stands for both.  Unused buckets
      keep the address they last served. */
  datatype Bucket = Bucket(id: nat, address: Addr, waiting: nat)

  datatype Lot = Lot(buckets: seq<Bucket>, inactive: seq<Bucket>, made: nat)

  // ---------------------------------------------------------------------------
  // The list operations

  /** The position of the active bucket of an address. */
  function FindAddr(q: seq<Bucket>, a: Addr): (r: Option<nat>)
    ensures r.Some? ==> r.value < |q| && q[r.value].address == a
    ensures r.None? <==> forall k :: 0 <= k < |q| ==> q[k].address != a
  {
    if q == [] then None
    else if q[0].address == a then Some(0)
    else match FindAddr(q[1..], a)
      case None => None
      case Some(k) => Some(k + 1)
  }

  function FindId(q: seq<Bucket>, id: nat): (r: Option<nat>)
    ensures r.Some? ==> r.value < |q| && q[r.value].id == id
    ensures r.None? <==> forall k :: 0 <= k < |q| ==> q[k].id != id
  {
    if q == [] then None
    else if q[0].id == id then Some(0)
    else match FindId(q[1..], id)
      case None => None
      case Some(k) => Some(k + 1)
  }

  /** The bucket that `UnparkThreads` notifies. */
  function Find(lot: Lot, a: Addr): (r: Option<nat>) {
    match FindAddr(lot.buckets, a)
    case None => None
    case Some(k) => Some(lot.buckets[k].id)
  }

  /** `Park` enters the bucket of an address: the active one, an unused one, or a new one. */
  function Acquire(lot: Lot, a: Addr): (Lot, nat) {
    match FindAddr(lot.buckets, a)
    case Some(k) =>
      var b := lot.buckets[k];
      (lot.(buckets := lot.buckets[k := b.(waiting := b.waiting + 1)]), b.id)
    case None =>
      if lot.inactive != [] then
        var b := lot.inactive[0];
        (Lot([Bucket(b.id, a, 1)] + lot.buckets, lot.inactive[1..], lot.made), b.id)
      else (Lot([Bucket(lot.made, a, 1)] + lot.buckets, [], lot.made + 1), lot.made)
  }

  /** `Park` leaves its bucket; the last one to leave puts the bucket among the unused ones. */
  function Leave(lot: Lot, id: nat): Lot {
    match FindId(lot.buckets, id)
    case None => lot
    case Some(k) =>
      var b := lot.buckets[k];
      if b.waiting > 1 then lot.(buckets := lot.buckets[k := b.(waiting := b.waiting - 1)])
      else Lot(lot.buckets[..k] + lot.buckets[k + 1..], [b.(waiting := 0)] + lot.inactive, lot.made)
  }

  // ---------------------------------------------------------------------------
  // What the lists mean

  ghost predicate Distinct(q: seq<Bucket>) {
    && (forall i, j :: 0 <= i < |q| && 0 <= j < |q| && i != j ==> q[i].id != q[j].id)
  }

  ghost predicate Apart(p: seq<Bucket>, q: seq<Bucket>) {
    forall i, j :: 0 <= i < |p| && 0 <= j < |q| ==> p[i].id != q[j].id
  }

  /** Every bucket made is in one of the two lists at most once; an active one has waiting threads
      and is the only one of its address. */
  ghost predicate LotOk(lot: Lot) {
    && Distinct(lot.buckets) && Distinct(lot.inactive) && Apart(lot.buckets, lot.inactive)
    && (forall k :: 0 <= k < |lot.buckets| ==> lot.buckets[k].waiting > 0 && lot.buckets[k].id < lot.made)
    && (forall k :: 0 <= k < |lot.inactive| ==> lot.inactive[k].id < lot.made)
    && (forall i, j :: 0 <= i < |lot.buckets| && 0 <= j < |lot.buckets| && i != j ==>
         lot.buckets[i].address != lot.buckets[j].address)
  }

  /** The active bucket with a number. */
  function Active(lot: Lot, id: nat): (r: Option<Bucket>)
    ensures r.Some? ==> r.value.id == id && r.value in lot.buckets
  {
    match FindId(lot.buckets, id)
    case None => None
    case Some(k) => Some(lot.buckets[k])
  }

  lemma ActiveIs(lot: Lot, k: nat)
    requires Distinct(lot.buckets) && k < |lot.buckets|
    ensures Active(lot, lot.buckets[k].id) == Some(lot.buckets[k])
  {
  }

  lemma FindIsActive(lot: Lot, a: Addr)
    requires LotOk(lot)
    ensures Find(lot, a).Some? ==>
      Active(lot, Find(lot, a).value).Some? && Active(lot, Find(lot, a).value).value.address == a
    ensures forall id: nat :: Active(lot, id).Some? && Active(lot, id).value.address == a ==> Find(lot, a) == Some(id)
  {
    if Find(lot, a).Some? {
      ActiveIs(lot, FindAddr(lot.buckets, a).value);
    }
  }

  /** Entering a bucket: it is the address's one, it counts one more, and no other changes. */
  lemma AcquireMeans(lot: Lot, a: Addr)
    requires LotOk(lot)
    ensures var (after, id) := Acquire(lot, a);
      && LotOk(after)
      && Active(after, id) ==
           Some(Bucket(id, a, (if Active(lot, id).Some? then Active(lot, id).value.waiting else 0) + 1))
      && (Active(lot, id).Some? ==> Active(lot, id).value.address == a)
      && forall x :: x != id ==> Active(after, x) == Active(lot, x)
  {
    var k := FindAddr(lot.buckets, a);
    if k.Some? {
      ActiveIs(lot, k.value);
      AdjustMeans(lot, k.value, lot.buckets[k.value].waiting + 1);
    } else {
      OpenMeans(lot, a, Acquire(lot, a).0);
    }
  }

  /** Another count in one active bucket. */
  lemma AdjustMeans(lot: Lot, k: nat, n: nat)
    requires LotOk(lot) && k < |lot.buckets| && n > 0
    ensures var b := lot.buckets[k].(waiting := n); var after := lot.(buckets := lot.buckets[k := b]);
      LotOk(after) && Active(after, b.id) == Some(b) && forall x :: x != b.id ==> Active(after, x) == Active(lot, x)
  {
    var b := lot.buckets[k].(waiting := n);
    var after := lot.(buckets := lot.buckets[k := b]);
    ActiveIs(after, k);
    forall x | x != b.id
      ensures Active(after, x) == Active(lot, x)
    {
      SameElsewhere(lot.buckets, k, b, x);
    }
  }

  /** A bucket that was unused or is new becomes active. */
  lemma OpenMeans(lot: Lot, a: Addr, after: Lot)
    requires LotOk(lot) && FindAddr(lot.buckets, a).None?
    requires after.buckets != [] && after.buckets == [Bucket(after.buckets[0].id, a, 1)] + lot.buckets
    requires if lot.inactive != []
      then after.buckets[0].id == lot.inactive[0].id && after.inactive == lot.inactive[1..] && after.made == lot.made
      else after.buckets[0].id == lot.made && after.inactive == [] && after.made == lot.made + 1
    ensures LotOk(after) && Active(lot, after.buckets[0].id).None?
      && Active(after, after.buckets[0].id) == Some(after.buckets[0])
    ensures forall x :: x != after.buckets[0].id ==> Active(after, x) == Active(lot, x)
  {
    var b := after.buckets[0];
    NewIsApart(lot, b.id, after);
    OpenIsOk(lot, b, after);
    forall x | x != b.id
      ensures Active(after, x) == Active(lot, x)
    {
      FoundBehind(lot.buckets, b, x);
    }
  }

  lemma FoundBehind(q: seq<Bucket>, b: Bucket, x: nat)
    requires x != b.id
    ensures FindId([b] + q, x).None? <==> FindId(q, x).None?
    ensures FindId(q, x).Some? ==> FindId([b] + q, x) == Some(FindId(q, x).value + 1)
  {
    assert ([b] + q)[1..] == q;
  }

  lemma OpenIsOk(lot: Lot, b: Bucket, after: Lot)
    requires LotOk(lot) && FindAddr(lot.buckets, b.address).None? && after.buckets == [b] + lot.buckets
    requires b.waiting > 0 && b.id < after.made && lot.made <= after.made
    requires forall k :: 0 <= k < |lot.buckets| ==> lot.buckets[k].id != b.id
    requires forall k :: 0 <= k < |after.inactive| ==> after.inactive[k].id != b.id && after.inactive[k].id < after.made
    requires Apart(lot.buckets, after.inactive) && Distinct(after.inactive)
    ensures LotOk(after)
  {
    var q := after.buckets;
    assert q[0] == b && forall k :: 0 < k < |q| ==> q[k] == lot.buckets[k - 1];
  }

  /** The number is nobody's among the active buckets, and the next unused ones have others. */
  lemma NewIsApart(lot: Lot, id: nat, after: Lot)
    requires LotOk(lot)
    requires if lot.inactive != [] then id == lot.inactive[0].id && after.inactive == lot.inactive[1..]
      else id == lot.made && after.inactive == []
    ensures forall k :: 0 <= k < |lot.buckets| ==> lot.buckets[k].id != id
    ensures forall k :: 0 <= k < |after.inactive| ==> after.inactive[k].id != id
    ensures Apart(lot.buckets, after.inactive) && Distinct(after.inactive)
  {
  }

  lemma {:induction false} SameElsewhere(q: seq<Bucket>, k: nat, b: Bucket, x: nat)
    requires k < |q| && b.id == q[k].id && b.id != x
    ensures FindId(q[k := b], x) == FindId(q, x)
  {
    if k > 0 {
      assert q[k := b][1..] == q[1..][k - 1 := b];
      SameElsewhere(q[1..], k - 1, b, x);
    } else {
      assert q[k := b][1..] == q[1..];
    }
  }

  lemma {:induction false} SameWithout(q: seq<Bucket>, k: nat, x: nat)
    requires k < |q| && q[k].id != x
    ensures var r := q[..k] + q[k + 1..];
      match FindId(q, x)
      case None => FindId(r, x).None?
      case Some(i) => i != k && FindId(r, x) == Some(if i < k then i else i - 1)
  {
    var r := q[..k] + q[k + 1..];
    if k > 0 {
      assert r[1..] == q[1..][..k - 1] + q[1..][k..];
      if q[0].id != x { SameWithout(q[1..], k - 1, x); }
    } else {
      assert r == q[1..];
    }
  }

  /** Leaving a bucket: it counts one less and is gone when nobody is left; no other changes. */
  lemma LeaveMeans(lot: Lot, id: nat)
    requires LotOk(lot) && Active(lot, id).Some?
    ensures var after, b := Leave(lot, id), Active(lot, id).value;
      && LotOk(after)
      && Active(after, id) == (if b.waiting > 1 then Some(b.(waiting := b.waiting - 1)) else None)
      && forall x :: x != id ==> Active(after, x) == Active(lot, x)
  {
    var b, k := Active(lot, id).value, FindId(lot.buckets, id).value;
    if b.waiting > 1 {
      AdjustMeans(lot, k, b.waiting - 1);
    } else {
      CloseMeans(lot, k);
    }
  }

  /** A bucket that nobody waits in becomes unused. */
  lemma CloseMeans(lot: Lot, k: nat)
    requires LotOk(lot) && k < |lot.buckets|
    ensures var b := lot.buckets[k];
      var after := Lot(lot.buckets[..k] + lot.buckets[k + 1..], [b.(waiting := 0)] + lot.inactive, lot.made);
      LotOk(after) && Active(after, b.id).None? && forall x :: x != b.id ==> Active(after, x) == Active(lot, x)
  {
    var b := lot.buckets[k];
    var rest, unused := lot.buckets[..k] + lot.buckets[k + 1..], [b.(waiting := 0)] + lot.inactive;
    assert forall i :: 0 <= i < |rest| ==> rest[i] == lot.buckets[if i < k then i else i + 1];
    assert forall i :: 0 < i < |unused| ==> unused[i] == lot.inactive[i - 1];
    assert Distinct(rest);
    assert Distinct(unused);
    assert Apart(rest, unused);
    forall x | x != b.id
      ensures Active(Lot(rest, unused, lot.made), x) == Active(lot, x)
    {
      SameWithout(lot.buckets, k, x);
    }
  }

  // ---------------------------------------------------------------------------
  // The lists in place

  class BucketList {
    var buckets: seq<Bucket>
    var inactive: seq<Bucket>
    var made: nat

    ghost function L(): Lot
      reads this
    {
      Lot(buckets, inactive, made)
    }

    constructor ()
      ensures L() == Lot([], [], 0) && LotOk(L())
    {
      buckets, inactive, made := [], [], 0;
    }

    /** The loop over the active buckets. */
    method IndexOf(a: Addr) returns (r: Option<nat>)
      ensures r == FindAddr(buckets, a)
    {
      var i := 0;
      while i < |buckets|
        invariant 0 <= i <= |buckets|
        invariant match FindAddr(buckets[i..], a)
          case None => FindAddr(buckets, a).None?
          case Some(k) => FindAddr(buckets, a) == Some(i + k)
      {
        if buckets[i].address == a { return Some(i); }
        assert buckets[i..][1..] == buckets[i + 1..];
        i := i + 1;
      }
      return None;
    }

    /** The first half of `Park`. */
    method EnterBucket(a: Addr) returns (id: nat)
      modifies this
      ensures (L(), id) == Acquire(old(L()), a)
    {
      var found := IndexOf(a);
      if found.Some? {
        var b := buckets[found.value];
        buckets := buckets[found.value := b.(waiting := b.waiting + 1)];
        return b.id;
      }
      var n;
      if inactive != [] {
        n := inactive[0];
        inactive := inactive[1..];
      } else {
        n := Bucket(made, a, 0);
        made := made + 1;
      }
      buckets := [Bucket(n.id, a, 1)] + buckets;
      return n.id;
    }

    /** The end of `Park`.  The search stops at the bucket: it has a waiting thread, so it is active. */
    method LeaveBucket(id: nat)
      requires LotOk(L()) && Active(L(), id).Some?
      modifies this
      ensures L() == Leave(old(L()), id)
    {
      var k := 0;
      while buckets[k].id != id
        invariant 0 <= k < |buckets|
        invariant forall j :: 0 <= j < k ==> buckets[j].id != id
        decreases |buckets| - k
      {
        k := k + 1;
      }
      var b := buckets[k];
      if b.waiting > 1 {
        buckets := buckets[k := b.(waiting := b.waiting - 1)];
      } else {
        buckets := buckets[..k] + buckets[k + 1..];
        inactive := [b.(waiting := 0)] + inactive;
      }
    }

    /** `UnparkThreads`, up to the notification. */
    method BucketOf(a: Addr) returns (id: Option<nat>)
      ensures id == Find(L(), a)
    {
      var found := IndexOf(a);
      if found.None? { return None; }
      return Some(buckets[found.value].id);
    }
  }
}
