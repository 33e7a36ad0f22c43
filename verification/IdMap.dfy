/** Choosing new ids: the map from old to new ids and the bit set of new ids in use. */
module IdMap {
  import opened StringLiterals
  import opened Survival

  /** Entries of the map for ids that are in use but have no new id yet, and for ids that are not in use. */
  const UNMAPPED: Word := 0x1_0000_0000 - 10000
  const UNUSED: Word := 0x1_0000_0000 - 10001

  /** Half of the bits of each element are used. */
  const M_BITS := 32

  const TYPE_LIMIT := 3011
  const TYPE_FIRST := 8
  const NAME_LIMIT := 3011
  const NAME_FIRST := 3019
  const FN_LIMIT := 19071
  const FN_FIRST := 6203

  // ---------- the bit set ----------

  /** Bit `k` of a number, and the number with that bit set. */
  predicate Bit(x: nat, k: nat)
    decreases k
  {
    if k == 0 then x % 2 == 1 else Bit(x / 2, k - 1)
  }

  function OrBit(x: nat, k: nat): nat
    decreases k
  {
    if k == 0 then x / 2 * 2 + 1 else OrBit(x / 2, k - 1) * 2 + x % 2
  }

  lemma {:induction false} SetBit(x: nat, k: nat, j: nat)
    ensures Bit(OrBit(x, k), j) <==> j == k || Bit(x, j)
    decreases k
  {
    assert OrBit(x, k) / 2 == if k == 0 then x / 2 else OrBit(x / 2, k - 1);
    if k > 0 && j > 0 {
      SetBit(x / 2, k - 1, j - 1);
    }
  }

  lemma {:induction false} NoBit(k: nat)
    ensures !Bit(0, k)
    decreases k
  {
    if k > 0 {
      NoBit(k - 1);
    }
  }

  predicate InBits(mapped: seq<nat>, id: nat) {
    id < |mapped| * M_BITS && Bit(mapped[id / M_BITS], id % M_BITS)
  }

  /** Setting a bit, after making room for it, adds one element. */
  lemma SetAddsOne(mapped: seq<nat>, grown: seq<nat>, id: nat, j: nat)
    requires |mapped| <= |grown| && grown[..|mapped|] == mapped && id < |grown| * M_BITS
    requires forall i :: |mapped| <= i < |grown| ==> grown[i] == 0
    ensures var k := id / M_BITS;
            InBits(grown[k := OrBit(grown[k], id % M_BITS)], j) <==> j == id || InBits(mapped, j)
  {
    hide Bit, OrBit;
    var k := id / M_BITS;
    var i := j / M_BITS;
    NoBit(j % M_BITS);
    if i == k {
      SetBit(grown[k], id % M_BITS, j % M_BITS);
    }
    if i < |mapped| {
      assert grown[i] == grown[..|mapped|][i];
    }
  }

  // ---------- the state of the map ----------

  predicate IsNew(v: Word) {
    v != UNMAPPED && v != UNUSED
  }

  /** The old ids that are in use. */
  function Used(m: seq<Word>): set<nat> {
    set i | 0 <= i < |m| && m[i] != UNUSED
  }

  /** The old ids that have a new id. */
  function Done(m: seq<Word>): set<nat> {
    set i | 0 <= i < |m| && IsNew(m[i])
  }

  /** The new ids. */
  function Image(m: seq<Word>): set<nat> {
    set i | 0 <= i < |m| && IsNew(m[i]) :: m[i]
  }

  ghost predicate Injective(m: seq<Word>) {
    forall i, j :: 0 <= i < |m| && 0 <= j < |m| && IsNew(m[i]) && m[i] == m[j] ==> i == j
  }

  /** `m` gives new ids to some of the ids in use in `m0`. */
  ghost predicate Extends(m0: seq<Word>, m: seq<Word>) {
    && |m| == |m0|
    && forall i :: 0 <= i < |m| ==> (m0[i] == UNUSED <==> m[i] == UNUSED) && (IsNew(m0[i]) ==> m[i] == m0[i])
  }

  /** What every step of the mapping passes keeps. */
  ghost predicate Inv(m0: seq<Word>, m: seq<Word>, mapped: seq<nat>) {
    && Extends(m0, m) && Injective(m)
    && (forall j :: 0 <= j ==> (InBits(mapped, j) <==> j in Image(m)))
    && (forall v :: v in Image(m) ==> 1 <= v < 25273 + |Used(m0)|)
  }

  /** The old id has a new one, the first one from `start` on that was free: those in between are in use. */
  ghost predicate Near(m: seq<Word>, id: nat, start: nat) {
    id < |m| && IsNew(m[id]) && m[id] >= start && forall j: nat :: start <= j < m[id] ==> j in Image(m)
  }

  lemma NearStays(m0: seq<Word>, m: seq<Word>, id: nat, start: nat)
    requires Near(m0, id, start) && Extends(m0, m)
    ensures Near(m, id, start)
  {
    forall j: nat | start <= j < m[id]
      ensures j in Image(m)
    {
      assert j in Image(m0);
      var i :| 0 <= i < |m0| && IsNew(m0[i]) && m0[i] == j;
      assert m[i] == j;
    }
  }

  /** The id of request `k` needs a new id in `m0`, and no earlier request is for it. */
  predicate FirstFor(m0: seq<Word>, requests: seq<Request>, k: nat)
    requires k < |requests|
  {
    && requests[k].id < |m0| && m0[requests[k].id] == UNMAPPED
    && forall j :: 0 <= j < k ==> requests[j].id != requests[k].id
  }

  /** Each id that needs a new id in `m0` and that `requests` is the first to ask for, after `earlier`, gets one near
      its hash. */
  ghost predicate NearHashes(m0: seq<Word>, m: seq<Word>, earlier: seq<Request>, requests: seq<Request>, limit: nat,
                             first: nat)
    requires limit > 0
  {
    forall k | 0 <= k < |requests| && FirstFor(m0, earlier + requests, |earlier| + k) ::
      Near(m, requests[k].id, requests[k].hash % limit + first)
  }

  lemma NearHashesStay(m0: seq<Word>, m: seq<Word>, m1: seq<Word>, earlier: seq<Request>, requests: seq<Request>,
                       limit: nat, first: nat)
    requires limit > 0 && NearHashes(m0, m, earlier, requests, limit, first) && Extends(m, m1)
    ensures NearHashes(m0, m1, earlier, requests, limit, first)
  {
    hide Near, Extends, FirstFor;
    forall k | 0 <= k < |requests| && FirstFor(m0, earlier + requests, |earlier| + k)
      ensures Near(m1, requests[k].id, requests[k].hash % limit + first)
    {
      NearStays(m, m1, requests[k].id, requests[k].hash % limit + first);
    }
  }

  /** What a pass does after others, in terms of the map before all of them. */
  lemma NearHashesAfter(m0: seq<Word>, mid: seq<Word>, m: seq<Word>, earlier: seq<Request>, requests: seq<Request>,
                        limit: nat, first: nat)
    requires limit > 0 && OthersStay(m0, mid, earlier) && NearHashes(mid, m, [], requests, limit, first)
    ensures NearHashes(m0, m, earlier, requests, limit, first)
  {
    assert earlier + [] == earlier;
    NearHashesLater(m0, mid, m, earlier, [], requests, limit, first);
  }

  lemma NearHashesLater(m0: seq<Word>, mid: seq<Word>, m: seq<Word>, earlier: seq<Request>, between: seq<Request>,
                        requests: seq<Request>, limit: nat, first: nat)
    requires limit > 0 && OthersStay(m0, mid, earlier) && NearHashes(mid, m, between, requests, limit, first)
    ensures NearHashes(m0, m, earlier + between, requests, limit, first)
  {
    hide Near, FirstFor, OthersStay;
    forall k | 0 <= k < |requests| && FirstFor(m0, earlier + between + requests, |earlier + between| + k)
      ensures Near(m, requests[k].id, requests[k].hash % limit + first)
    {
      assert earlier + between + requests == earlier + (between + requests);
      FirstAfter(m0, mid, earlier, between + requests, |between| + k);
    }
  }

  lemma FirstAfter(m0: seq<Word>, mid: seq<Word>, earlier: seq<Request>, requests: seq<Request>, k: nat)
    requires OthersStay(m0, mid, earlier) && k < |requests| && FirstFor(m0, earlier + requests, |earlier| + k)
    ensures FirstFor(mid, requests, k)
  {
    var all := earlier + requests;
    forall j | 0 <= j < |earlier|
      ensures earlier[j].id != requests[k].id
    {
      assert all[j] == earlier[j] && all[|earlier| + k] == requests[k];
    }
    forall j | 0 <= j < k
      ensures requests[j].id != requests[k].id
    {
      assert all[|earlier| + j] == requests[j] && all[|earlier| + k] == requests[k];
    }
  }

  lemma NewIsNear(m0: seq<Word>, m: seq<Word>, id: nat, start: nat, r: Word)
    requires Extends(m0, m) && id < |m| && m[id] == UNMAPPED && start <= r && IsNew(r)
    requires forall j :: start <= j < r ==> j in Image(m)
    ensures Near(m[id := r], id, start)
  {
    var m1 := m[id := r];
    forall j: nat | start <= j < r
      ensures j in Image(m1)
    {
      assert j in Image(m);
      var i :| 0 <= i < |m| && IsNew(m[i]) && m[i] == j;
      assert m1[i] == j;
    }
  }

  lemma OnlyThis(m: seq<Word>, m1: seq<Word>, request: Request)
    requires |m1| == |m| && forall i :: 0 <= i < |m| && i != request.id ==> m1[i] == m[i]
    ensures OthersStay(m, m1, [request])
  {
    assert [request][0] == request;
  }

  /** The first `id` entries are mapped, and `maxBound` is the bound of their new ids. */
  ghost predicate SoFar(was: seq<Word>, m: seq<Word>, id: nat, maxBound: nat) {
    && |m| == |was| && id <= |m| && Extends(was, m)
    && (forall i :: id <= i < |m| ==> m[i] == was[i])
    && (forall i :: 0 <= i < id && was[i] == UNMAPPED ==> Near(m, i, 1))
    && (forall i :: 0 <= i < id ==> m[i] != UNMAPPED)
    && IsBound(maxBound, m[..id])
  }

  lemma SoFarNothing(m: seq<Word>)
    ensures SoFar(m, m, 0, 0)
  {
  }

  lemma SoFarAt(was: seq<Word>, m: seq<Word>, id: nat, maxBound: nat)
    requires SoFar(was, m, id, maxBound) && id < |m|
    ensures m[id] == was[id]
  {
  }

  lemma SoFarEnds(was: seq<Word>, m: seq<Word>, maxBound: nat)
    requires SoFar(was, m, |m|, maxBound)
    ensures |m| == |was| && Extends(was, m) && IsBound(maxBound, m)
    ensures forall i :: 0 <= i < |m| ==> m[i] != UNMAPPED
    ensures forall i :: 0 <= i < |m| && was[i] == UNMAPPED ==> Near(m, i, 1)
  {
    assert m[..|m|] == m;
  }

  lemma SoFarNext(was: seq<Word>, m: seq<Word>, m1: seq<Word>, id: nat, maxBound: nat)
    requires SoFar(was, m, id, maxBound) && id < |m| == |m1| && Extends(m, m1) && m1[id] != UNMAPPED
    requires was[id] == UNMAPPED ==> Near(m1, id, 1)
    requires forall i :: 0 <= i < |m| && i != id ==> m1[i] == m[i]
    ensures var v: nat := m1[id];
            SoFar(was, m1, id + 1, if m1[id] == UNUSED || maxBound >= v + 1 then maxBound else v + 1)
  {
    ExtendsTwice(was, m, m1);
    hide Near, Extends;
    forall i | 0 <= i < id && was[i] == UNMAPPED
      ensures Near(m1, i, 1)
    {
      NearStays(m, m1, i, 1);
    }
    BoundNext(maxBound, m, m1, id);
  }

  lemma BoundNext(bound: nat, m: seq<Word>, m1: seq<Word>, id: nat)
    requires id < |m| == |m1| && m1[id] != UNMAPPED && IsBound(bound, m[..id])
    requires forall i :: 0 <= i < id ==> m1[i] == m[i]
    ensures var v: nat := m1[id];
            IsBound(if m1[id] == UNUSED || bound >= v + 1 then bound else v + 1, m1[..id + 1])
  {
    var more := m1[..id + 1];
    assert forall i :: 0 <= i < id ==> more[i] == m[..id][i];
    assert more[id] == m1[id];
  }

  /** One more request. */
  lemma OneRequest(was: seq<Word>, m: seq<Word>, m1: seq<Word>, requests: seq<Request>, k: nat, limit: nat, first: nat)
    requires limit > 0 && k < |requests| && requests[k].id < |m|
    requires NearHashes(was, m, [], requests[..k], limit, first) && OthersStay(was, m, requests[..k])
    requires Extends(m, m1) && OthersStay(m, m1, [requests[k]])
    requires m[requests[k].id] == UNMAPPED ==> Near(m1, requests[k].id, requests[k].hash % limit + first)
    ensures NearHashes(was, m1, [], requests[..k + 1], limit, first) && OthersStay(was, m1, requests[..k + 1])
  {
    hide Near, Extends, OthersStay, FirstFor;
    var more := requests[..k + 1];
    assert more == requests[..k] + [requests[k]];
    OthersStayTwice(was, m, m1, requests[..k], [requests[k]]);
    NearHashesStay(was, m, m1, [], requests[..k], limit, first);
    assert [] + more == more && [] + requests[..k] == requests[..k];
    forall j | 0 <= j < |more| && FirstFor(was, [] + more, j)
      ensures Near(m1, more[j].id, more[j].hash % limit + first)
    {
      if j < k {
        FirstBefore(was, requests, j, k);
        assert requests[..k][j] == more[j];
      } else {
        FirstUnmapped(was, m, requests, k);
      }
    }
  }

  lemma FirstUnmapped(was: seq<Word>, m: seq<Word>, requests: seq<Request>, k: nat)
    requires k < |requests| && OthersStay(was, m, requests[..k]) && FirstFor(was, requests[..k + 1], k)
    ensures requests[k].id < |m| && m[requests[k].id] == UNMAPPED
  {
    forall h | 0 <= h < k
      ensures requests[..k][h].id != requests[k].id
    {
      assert requests[..k + 1][h] == requests[..k][h] && requests[..k + 1][k] == requests[k];
    }
  }

  lemma NothingRequested(m: seq<Word>, requests: seq<Request>, limit: nat, first: nat)
    requires limit > 0
    ensures OthersStay(m, m, requests[..0]) && NearHashes(m, m, [], requests[..0], limit, first)
  {
  }

  lemma FirstBefore(m0: seq<Word>, requests: seq<Request>, j: nat, k: nat)
    requires j < k < |requests| && FirstFor(m0, requests[..k + 1], j)
    ensures FirstFor(m0, requests[..k], j)
  {
    forall h | 0 <= h < j
      ensures requests[..k][h].id != requests[..k][j].id
    {
      assert requests[..k + 1][h] == requests[..k][h] && requests[..k + 1][j] == requests[..k][j];
    }
  }

  /** Only the ids requested change. */
  ghost predicate OthersStay(m0: seq<Word>, m: seq<Word>, requests: seq<Request>) {
    |m| == |m0| && forall i: nat :: i < |m| && !Requests(requests, i) ==> m[i] == m0[i]
  }

  predicate Requests(requests: seq<Request>, id: nat) {
    exists k :: 0 <= k < |requests| && requests[k].id == id
  }

  lemma OthersStayTwice(a: seq<Word>, b: seq<Word>, c: seq<Word>, first: seq<Request>, second: seq<Request>)
    requires OthersStay(a, b, first) && OthersStay(b, c, second)
    ensures OthersStay(a, c, first + second)
  {
    forall i: nat | i < |c| && !Requests(first + second, i)
      ensures c[i] == a[i]
    {
      forall k | 0 <= k < |first|
        ensures first[k].id != i
      {
        assert (first + second)[k] == first[k];
      }
      forall k | 0 <= k < |second|
        ensures second[k].id != i
      {
        assert (first + second)[|first| + k] == second[k];
      }
    }
  }

  function Interval(lo: nat, hi: nat): (r: set<nat>)
    requires lo <= hi
    ensures |r| == hi - lo && forall i :: i in r <==> lo <= i < hi
    decreases hi - lo
  {
    if lo == hi then {} else Interval(lo, hi - 1) + {(hi - 1) as nat}
  }

  /** There are at most as many new ids as old ids that have one. */
  lemma {:induction false} ImageSize(m: seq<Word>)
    ensures |Image(m)| <= |Done(m)|
    decreases |m|
  {
    if m == [] {
      assert Image(m) == {};
    } else {
      hide Image, Done, IsNew;
      ImageSize(m[..|m| - 1]);
      ImageNext(m);
      DoneNext(m);
    }
  }

  lemma ImageNext(m: seq<Word>)
    requires m != []
    ensures var r, v := m[..|m| - 1], m[|m| - 1]; Image(m) == if IsNew(v) then Image(r) + {v} else Image(r)
  {
    hide IsNew;
    var r := m[..|m| - 1];
    forall x | x in Image(r)
      ensures x in Image(m)
    {
      var i :| 0 <= i < |r| && IsNew(r[i]) && r[i] == x;
      assert m[i] == x;
    }
  }

  lemma DoneNext(m: seq<Word>)
    requires m != []
    ensures var r, n := m[..|m| - 1], |m| - 1;
            n !in Done(r) && Done(m) == if IsNew(m[n]) then Done(r) + {n} else Done(r)
  {
    hide IsNew;
  }

  /** Pigeonhole: a search that starts at `start` and passes only ids in use ends before `start` plus the ids in use. */
  lemma SearchEnds(m0: seq<Word>, m: seq<Word>, old_: nat, start: nat, r: nat)
    requires Extends(m0, m) && old_ < |m| && m[old_] == UNMAPPED && start <= r
    requires forall j :: start <= j < r ==> j in Image(m)
    ensures r <= start + |Used(m0)| - 1
  {
    SubsetSize(Interval(start, r), Image(m));
    ImageSize(m);
    assert Done(m) <= Used(m0) - {old_};
    SubsetSize(Done(m), Used(m0) - {old_});
    assert old_ in Used(m0);
  }

  /** Giving an old id a new id that is not in use keeps the invariant. */
  lemma MapOne(m0: seq<Word>, m: seq<Word>, mapped: seq<nat>, id: nat, v: Word, mapped1: seq<nat>)
    requires Inv(m0, m, mapped) && id < |m| && m[id] == UNMAPPED && IsNew(v) && !InBits(mapped, v)
    requires 1 <= v < 25273 + |Used(m0)|
    requires forall j :: 0 <= j ==> (InBits(mapped1, j) <==> j == v || InBits(mapped, j))
    ensures Inv(m0, m[id := v], mapped1)
  {
    var m1 := m[id := v];
    assert m0[id] == UNMAPPED;
    assert v !in Image(m);
    assert Image(m1) == Image(m) + {v} by {
      forall x | x in Image(m) ensures x in Image(m1) {
        var i :| 0 <= i < |m| && IsNew(m[i]) && m[i] == x;
        assert m1[i] == x;
      }
      assert m1[id] == v;
    }
    assert forall j :: 0 <= j < |m| && IsNew(m[j]) ==> m[j] in Image(m) && m[j] != v;
  }

  /** A request to map an old id near a hash value. */
  datatype Request = Request(id: nat, hash: Word)

  class Mapper {
    var idMapL: seq<Word>
    var mapped: seq<nat>
    var bound: nat
    var largestNewId: nat
    var errorLatch: bool

    constructor (bound: nat)
      ensures this.bound == bound && idMapL == [] && mapped == [] && largestNewId == 0 && !errorLatch
    {
      this.bound := bound;
      idMapL, mapped, largestNewId, errorLatch := [], [], 0, false;
    }

    predicate IsMapped(id: nat)
      reads this
    {
      InBits(mapped, id)
    }

    method SetMapped(id: nat)
      modifies `mapped
      ensures forall j :: 0 <= j ==> (InBits(mapped, j) <==> j == id || InBits(old(mapped), j))
    {
      ghost var was := mapped;
      ResizeMapped(id);
      ghost var grown := mapped;
      mapped := mapped[id / M_BITS := OrBit(mapped[id / M_BITS], id % M_BITS)];
      forall j | 0 <= j ensures InBits(mapped, j) <==> j == id || InBits(was, j) {
        SetAddsOne(was, grown, id, j);
      }
    }

    method ResizeMapped(id: nat)
      modifies `mapped
      ensures |old(mapped)| <= |mapped| && mapped[..|old(mapped)|] == old(mapped) && id < |mapped| * M_BITS
      ensures forall i :: |old(mapped)| <= i < |mapped| ==> mapped[i] == 0
    {
      if id >= |mapped| * M_BITS {
        mapped := mapped + seq(id / M_BITS + 1 - |mapped|, _ => 0);
      }
    }

    /** The first id from `id` on that is not in use. */
    method NextUnusedId(id: nat) returns (r: nat)
      ensures r >= id && !InBits(mapped, r) && forall j :: id <= j < r ==> InBits(mapped, j)
    {
      r := id;
      while IsMapped(r)
        invariant r >= id && forall j :: id <= j < r ==> InBits(mapped, j)
        decreases |mapped| * M_BITS - r
      {
        r := r + 1;
      }
    }

    /** Sets an entry of the map; anything but a fresh new id for an id that needs one is an error. */
    method LocalId(id: nat, newId: Word) returns (r: Word)
      modifies this
      ensures bound == old(bound)
      ensures id > bound ==> errorLatch && idMapL == old(idMapL) && mapped == old(mapped)
      ensures id <= bound && !IsNew(newId) ==>
                && errorLatch == old(errorLatch) && mapped == old(mapped)
                && idMapL == Resized(old(idMapL), id)[id := newId]
      ensures id <= bound && IsNew(newId) ==>
                var ok := Resized(old(idMapL), id)[id] == UNMAPPED && !InBits(old(mapped), newId);
                && errorLatch == (old(errorLatch) || !ok)
                && (ok ==> idMapL == Resized(old(idMapL), id)[id := newId] && largestNewId >= newId)
                && (ok ==> forall j :: 0 <= j ==> (InBits(mapped, j) <==> j == newId || InBits(old(mapped), j)))
                && (!ok ==> mapped == old(mapped) && idMapL == Resized(old(idMapL), id))
    {
      if id > bound {
        errorLatch := true;
        return UNUSED;
      }
      if id >= |idMapL| {
        idMapL := idMapL + seq(id + 1 - |idMapL|, _ => UNUSED);
      }
      if newId != UNMAPPED && newId != UNUSED {
        if idMapL[id] == UNUSED || idMapL[id] != UNMAPPED || IsMapped(newId) {
          errorLatch := true;
          return UNUSED;
        }
        SetMapped(newId);
        largestNewId := if largestNewId >= newId then largestNewId else newId;
      }
      idMapL := idMapL[id := newId];
      r := newId;
    }

    /** Starts a map in which exactly the given ids are in use. An id equal to the bound is let through. */
    method BuildIdMap(ids: seq<nat>)
      requires bound < UNUSED && !errorLatch
      modifies this
      ensures bound == old(bound)
      ensures errorLatch <==> exists k :: 0 <= k < |ids| && ids[k] > bound
      ensures !errorLatch ==>
                && mapped == [] && bound <= |idMapL| <= bound + 1
                && forall i :: 0 <= i < |idMapL| ==> idMapL[i] == if i in ids then 0xFFFF_D8F0 else 0xFFFF_D8EF
      ensures !errorLatch ==> forall k :: 0 <= k < |ids| ==> ids[k] < |idMapL|
    {
      mapped, largestNewId := [], 0;
      idMapL := seq(bound, _ => UNUSED);
      for k := 0 to |ids|
        invariant bound == old(bound) && mapped == [] && !errorLatch
        invariant forall j :: 0 <= j < k ==> ids[j] <= bound && ids[j] < |idMapL|
        invariant bound <= |idMapL| <= bound + 1
        invariant forall i :: 0 <= i < |idMapL| ==> idMapL[i] == if i in ids[..k] then UNMAPPED else UNUSED
      {
        assert ids[..k + 1] == ids[..k] + [ids[k]];
        var _ := LocalId(ids[k], UNMAPPED);
        if errorLatch {
          return;
        }
      }
      assert ids[..|ids|] == ids;
    }

    /** Maps what is still unmapped to the first free id at or after its hash, taken modulo `limit` above `first`. */
    method MapByHash(requests: seq<Request>, limit: nat, first: nat, ghost m0: seq<Word>)
      requires !errorLatch && Inv(m0, idMapL, mapped) && |idMapL| <= bound + 1
      requires forall k :: 0 <= k < |requests| ==> requests[k].id < |idMapL|
      requires 0 < limit && 1 <= first && limit - 1 + first <= 25273 && 25273 + |Used(m0)| < UNUSED
      modifies this
      ensures !errorLatch && Inv(m0, idMapL, mapped) && bound == old(bound)
      ensures forall k :: 0 <= k < |requests| ==> idMapL[requests[k].id] != UNMAPPED
      ensures Extends(old(idMapL), idMapL) && OthersStay(old(idMapL), idMapL, requests)
      ensures NearHashes(old(idMapL), idMapL, [], requests, limit, first)
    {
      hide NearHashes, Near, OthersStay;
      ghost var was := idMapL;
      NothingRequested(was, requests, limit, first);
      for k := 0 to |requests|
        invariant !errorLatch && Inv(m0, idMapL, mapped) && bound == old(bound)
        invariant Extends(was, idMapL) && OthersStay(was, idMapL, requests[..k])
        invariant forall j :: 0 <= j < k ==> idMapL[requests[j].id] != UNMAPPED
        invariant NearHashes(was, idMapL, [], requests[..k], limit, first)
      {
        var id := requests[k].id;
        ghost var m, bits := idMapL, mapped;
        if idMapL[id] == UNMAPPED {
          var start := requests[k].hash % limit + first;
          var r := NextUnusedId(start);
          SearchEnds(m0, idMapL, id, start, r);
          var _ := LocalId(id, r);
          MapOne(m0, m, bits, id, r, mapped);
          NewIsNear(m0, m, id, start, r);
        }
        OnlyThis(m, idMapL, requests[k]);
        OneRequest(was, m, idMapL, requests, k, limit, first);
      }
      assert requests[..|requests|] == requests;
    }

    method MapTypeConst(requests: seq<Request>, ghost m0: seq<Word>)
      requires !errorLatch && Inv(m0, idMapL, mapped) && |idMapL| <= bound + 1
      requires (forall k :: 0 <= k < |requests| ==> requests[k].id < |idMapL|) && 25273 + |Used(m0)| < UNUSED
      modifies this
      ensures !errorLatch && Inv(m0, idMapL, mapped) && bound == old(bound)
      ensures forall k :: 0 <= k < |requests| ==> idMapL[requests[k].id] != UNMAPPED
      ensures Extends(old(idMapL), idMapL) && OthersStay(old(idMapL), idMapL, requests)
      ensures NearHashes(old(idMapL), idMapL, [], requests, 3011, 8)
    {
      MapByHash(requests, TYPE_LIMIT, TYPE_FIRST, m0);
    }

    method MapNames(requests: seq<Request>, ghost m0: seq<Word>)
      requires !errorLatch && Inv(m0, idMapL, mapped) && |idMapL| <= bound + 1
      requires (forall k :: 0 <= k < |requests| ==> requests[k].id < |idMapL|) && 25273 + |Used(m0)| < UNUSED
      modifies this
      ensures !errorLatch && Inv(m0, idMapL, mapped) && bound == old(bound)
      ensures forall k :: 0 <= k < |requests| ==> idMapL[requests[k].id] != UNMAPPED
      ensures Extends(old(idMapL), idMapL) && OthersStay(old(idMapL), idMapL, requests)
      ensures NearHashes(old(idMapL), idMapL, [], requests, 3011, 3019)
    {
      MapByHash(requests, NAME_LIMIT, NAME_FIRST, m0);
    }

    /** Results by the code around them, then every id of selected instructions. */
    method MapFnBodies(results: seq<Request>, others: seq<Request>, ghost m0: seq<Word>)
      requires !errorLatch && Inv(m0, idMapL, mapped) && |idMapL| <= bound + 1
      requires forall k :: 0 <= k < |results| ==> results[k].id < |idMapL|
      requires (forall k :: 0 <= k < |others| ==> others[k].id < |idMapL|) && 25273 + |Used(m0)| < UNUSED
      modifies this
      ensures !errorLatch && Inv(m0, idMapL, mapped) && bound == old(bound)
      ensures Extends(old(idMapL), idMapL) && OthersStay(old(idMapL), idMapL, results + others)
      ensures NearHashes(old(idMapL), idMapL, [], results, 19071, 6203)
      ensures NearHashes(old(idMapL), idMapL, results, others, 19071, 6203)
    {
      hide NearHashes, OthersStay;
      ghost var was := idMapL;
      MapByHash(results, FN_LIMIT, FN_FIRST, m0);
      ghost var mid := idMapL;
      MapByHash(others, FN_LIMIT, FN_FIRST, m0);
      NearHashesStay(was, mid, idMapL, [], results, FN_LIMIT, FN_FIRST);
      NearHashesAfter(was, mid, idMapL, results, others, FN_LIMIT, FN_FIRST);
      OthersStayTwice(was, mid, idMapL, results, others);
    }

    /** Maps an id to the first free id from `unusedId` on, before which all are taken. */
    method MapNext(id: nat, unusedId: nat, ghost m0: seq<Word>) returns (r: nat)
      requires !errorLatch && Inv(m0, idMapL, mapped) && id < |idMapL| <= bound + 1 && idMapL[id] == UNMAPPED
      requires 25273 + |Used(m0)| < UNUSED
      requires unusedId >= 1 && forall j :: 1 <= j < unusedId ==> InBits(mapped, j)
      modifies this
      ensures !errorLatch && Inv(m0, idMapL, mapped) && bound == old(bound)
      ensures r >= 1 && forall j :: 1 <= j < r ==> InBits(mapped, j)
      ensures r < UNUSED && idMapL == old(idMapL)[id := r] && Near(idMapL, id, 1) && Extends(old(idMapL), idMapL)
    {
      r := NextUnusedId(unusedId);
      SearchEnds(m0, idMapL, id, 1, r);
      ghost var m, bits := idMapL, mapped;
      var _ := LocalId(id, r);
      MapOne(m0, m, bits, id, r, mapped);
      NewIsNear(m0, m, id, 1, r);
    }

    /** Gives the first free ids to what is left and sets the bound. */
    method MapRemainder(ghost m0: seq<Word>)
      requires !errorLatch && Inv(m0, idMapL, mapped) && |idMapL| <= bound + 1
      requires 25273 + |Used(m0)| < UNUSED
      modifies this
      ensures !errorLatch && Inv(m0, idMapL, mapped) && Extends(old(idMapL), idMapL)
      ensures forall i :: 0 <= i < |idMapL| ==> idMapL[i] != UNMAPPED
      ensures forall i :: 0 <= i < |idMapL| && old(idMapL)[i] == UNMAPPED ==> Near(idMapL, i, 1)
      ensures IsBound(bound, idMapL)
    {
      var unusedId: nat := 1;
      var maxBound: nat := 0;
      ghost var bnd, was := bound, idMapL;
      hide InBits, Near, Inv, Extends, SoFar;
      SoFarNothing(was);
      for id := 0 to |idMapL|
        invariant !errorLatch && Inv(m0, idMapL, mapped) && bound == bnd && |idMapL| == |was|
        invariant SoFar(was, idMapL, id, maxBound)
        invariant unusedId >= 1 && forall j :: 1 <= j < unusedId ==> InBits(mapped, j)
      {
        ghost var m := idMapL;
        SoFarAt(was, m, id, maxBound);
        if idMapL[id] != UNUSED {
          if idMapL[id] == UNMAPPED {
            unusedId := MapNext(id, unusedId, m0);
          }
          var newId: nat := idMapL[id];
          SoFarNext(was, m, idMapL, id, maxBound);
          maxBound := if maxBound >= newId + 1 then maxBound else newId + 1;
        } else {
          SoFarNext(was, m, m, id, maxBound);
        }
      }
      SoFarEnds(was, idMapL, maxBound);
      bound := maxBound;
    }

    /**
     * All mapping passes, for arbitrary hash values: no error; every id in use and no other gets a new id; the new
     * ids are distinct, positive and below the new bound, which is tight and at most 25273 above the number of ids.
     * Each new id is the first free one from where the hash of the first request for the old id says, and from 1 on
     * where there is no request.
     */
    method AssignIds(types: seq<Request>, names: seq<Request>, results: seq<Request>, others: seq<Request>)
      requires !errorLatch && mapped == [] && |idMapL| <= bound + 1 && 25273 + |Used(idMapL)| < UNUSED
      requires forall i :: 0 <= i < |idMapL| ==> !IsNew(idMapL[i])
      requires forall k :: 0 <= k < |types| ==> types[k].id < |idMapL|
      requires forall k :: 0 <= k < |names| ==> names[k].id < |idMapL|
      requires forall k :: 0 <= k < |results| ==> results[k].id < |idMapL|
      requires forall k :: 0 <= k < |others| ==> others[k].id < |idMapL|
      modifies this
      ensures !errorLatch && |idMapL| == |old(idMapL)|
      ensures forall i :: 0 <= i < |idMapL| ==> (IsNew(idMapL[i]) <==> old(idMapL)[i] != UNUSED)
      ensures Injective(idMapL)
      ensures forall i :: 0 <= i < |idMapL| && IsNew(idMapL[i]) ==> 1 <= idMapL[i] < bound
      ensures forall j :: 0 <= j ==> (InBits(mapped, j) <==> j in Image(idMapL))
      ensures IsBound(bound, idMapL)
      ensures bound <= 25273 + |Used(old(idMapL))|
      ensures AllNearHashes(old(idMapL), idMapL, types, names, results, others)
    {
      ghost var m0 := idMapL;
      assert Image(m0) == {};
      MapTypeConst(types, m0);
      ghost var m1 := idMapL;
      MapNames(names, m0);
      ghost var m2 := idMapL;
      MapFnBodies(results, others, m0);
      ghost var m3 := idMapL;
      MapRemainder(m0);
      AllPlaced(m0, m1, m2, m3, idMapL, types, names, results, others);
      assert forall i :: 0 <= i < |idMapL| && IsNew(idMapL[i]) ==> idMapL[i] in Image(idMapL);
    }
  }

  /** Where the new ids of types and constants, of names, of results and other ids in functions, and of the rest are. */
  ghost predicate AllNearHashes(m0: seq<Word>, m: seq<Word>, types: seq<Request>, names: seq<Request>,
                                results: seq<Request>, others: seq<Request>) {
    && NearHashes(m0, m, [], types, 3011, 8)
    && NearHashes(m0, m, types, names, 3011, 3019)
    && NearHashes(m0, m, types + names, results, 19071, 6203)
    && NearHashes(m0, m, types + names + results, others, 19071, 6203)
    && forall i: nat :: i < |m| && i < |m0| && m0[i] == UNMAPPED && !Requests(types + names + (results + others), i)
         ==> Near(m, i, 1)
  }

  lemma AllPlaced(m0: seq<Word>, m1: seq<Word>, m2: seq<Word>, m3: seq<Word>, m: seq<Word>, types: seq<Request>,
                  names: seq<Request>, results: seq<Request>, others: seq<Request>)
    requires OthersStay(m0, m1, types) && NearHashes(m0, m1, [], types, 3011, 8)
    requires OthersStay(m1, m2, names) && NearHashes(m1, m2, [], names, 3011, 3019) && Extends(m1, m2)
    requires OthersStay(m2, m3, results + others) && Extends(m2, m3) && Extends(m3, m)
    requires NearHashes(m2, m3, [], results, 19071, 6203) && NearHashes(m2, m3, results, others, 19071, 6203)
    requires forall i :: 0 <= i < |m| && m3[i] == UNMAPPED ==> Near(m, i, 1)
    ensures AllNearHashes(m0, m, types, names, results, others)
  {
    ExtendsTwice(m2, m3, m);
    ExtendsTwice(m1, m2, m);
    OthersStayTwice(m0, m1, m2, types, names);
    OthersStayTwice(m0, m2, m3, types + names, results + others);
    hide NearHashes, Near, Extends;
    NearHashesStay(m0, m1, m, [], types, 3011, 8);
    NearHashesStay(m1, m2, m, [], names, 3011, 3019);
    NearHashesAfter(m0, m1, m, types, names, 3011, 3019);
    NearHashesStay(m2, m3, m, [], results, 19071, 6203);
    NearHashesAfter(m0, m2, m, types + names, results, 19071, 6203);
    NearHashesStay(m2, m3, m, results, others, 19071, 6203);
    NearHashesLater(m0, m2, m, types + names, results, others, 19071, 6203);
  }

  lemma ExtendsTwice(a: seq<Word>, b: seq<Word>, c: seq<Word>)
    requires Extends(a, b) && Extends(b, c)
    ensures Extends(a, c)
  {
  }

  /** One more than the largest new id, or 0 if there is none. */
  ghost predicate IsBound(bound: nat, m: seq<Word>) {
    && (forall i :: 0 <= i < |m| && IsNew(m[i]) ==> m[i] < bound)
    && (bound > 0 ==> exists i :: 0 <= i < |m| && IsNew(m[i]) && bound - 1 == m[i])
  }

  /** The map with room for an id. */
  function Resized(m: seq<Word>, id: nat): (r: seq<Word>)
    ensures id < |r|
  {
    if id >= |m| then m + seq(id + 1 - |m|, _ => UNUSED) else m
  }

  /** An id equal to the bound of the header is taken without an error. */
  method IdAtBound(bound: nat) returns (mapper: Mapper)
    requires bound < UNUSED
    ensures fresh(mapper) && !mapper.errorLatch
    ensures |mapper.idMapL| == bound + 1 && mapper.idMapL[bound] == UNMAPPED
  {
    mapper := new Mapper(bound);
    mapper.BuildIdMap([bound]);
    assert [bound][0] < |mapper.idMapL|;
  }
}
