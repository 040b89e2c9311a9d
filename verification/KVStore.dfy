/** The server's key-value store: the single-map KVStoreSparseST as the specification, and KVStoreSparse, which spreads
    the keys over one bucket per thread. */
module KVStore {

  type Key = nat
  type Value = real
  type Entry = seq<real>

  /** A handle without state across keys: what Push makes of an entry, what Pull reads from it (k values), and the entry
      that the map creates for a key it has not seen. */
  datatype Handle = Handle(push: (Key, seq<Value>, Entry) -> Entry, pull: (Key, Entry) -> seq<Value>, initial: Entry)

  type Table = map<Key, Entry>

  function Lookup(h: Handle, m: Table, x: Key): Entry {
    if x in m then m[x] else h.initial
  }

  /** The values of position i when there are k per key. */
  function Block(vals: seq<Value>, k: nat, i: nat): seq<Value>
    requires (i + 1) * k <= |vals|
  {
    assert i * k <= (i + 1) * k;
    vals[i * k..(i + 1) * k]
  }

  lemma BlockInside(n: nat, k: nat, i: nat)
    requires i < n
    ensures (i + 1) * k <= n * k
  {
  }

  // ---- one map ----

  /** Pushing positions lo .. hi-1 into a map, in order. */
  ghost function Pushed(h: Handle, m: Table, keys: seq<Key>, vals: seq<Value>, k: nat, lo: nat, hi: nat): Table
    requires lo <= hi <= |keys| && |vals| == |keys| * k
    decreases hi - lo
  {
    if lo == hi then m
    else
      var before := Pushed(h, m, keys, vals, k, lo, hi - 1);
      BlockInside(|keys|, k, hi - 1);
      var x := keys[hi - 1];
      before[x := h.push(x, Block(vals, k, hi - 1), Lookup(h, before, x))]
  }

  /** Pulling creates the entries that are missing. */
  ghost function Touched(h: Handle, m: Table, keys: seq<Key>, lo: nat, hi: nat): Table
    requires lo <= hi <= |keys|
    decreases hi - lo
  {
    if lo == hi then m
    else
      var before := Touched(h, m, keys, lo, hi - 1);
      before[keys[hi - 1] := Lookup(h, before, keys[hi - 1])]
  }

  /** What a pull answers: k values per key, read from the map. */
  ghost predicate Pulled(h: Handle, m: Table, keys: seq<Key>, vals: seq<Value>, k: nat, lo: nat, hi: nat)
    requires lo <= hi <= |keys| && |vals| == |keys| * k
  {
    forall i: nat {:trigger keys[i]} :: lo <= i < hi ==>
      (i + 1) * k <= |vals| && Block(vals, k, i) == h.pull(keys[i], Lookup(h, m, keys[i]))
  }

  // ---- single-map store ----

  class SingleStore {
    const handle: Handle
    const k: nat
    var data: Table

    constructor (handle: Handle, k: nat)
      requires k > 0
      ensures this.handle == handle && this.k == k && data == map[]
    {
      this.handle, this.k, data := handle, k, map[];
    }

    method Clear()
      modifies this`data
      ensures data == map[]
    {
      data := map[];
    }

    /** HandlePush with a constant number of values per key. */
    method HandlePush(keys: seq<Key>, vals: seq<Value>, width: nat)
      requires |vals| == |keys| * width
      modifies this`data
      ensures data == Pushed(handle, old(data), keys, vals, width, 0, |keys|)
    {
      for i := 0 to |keys|
        invariant data == Pushed(handle, old(data), keys, vals, width, 0, i)
      {
        BlockInside(|keys|, width, i);
        var x := keys[i];
        data := data[x := handle.push(x, Block(vals, width, i), Lookup(handle, data, x))];
      }
    }

    /** HandlePull with k values per key, which the handle must give; the answers stand one after the other. */
    method HandlePull(keys: seq<Key>) returns (vals: seq<Value>)
      requires forall x, e :: |handle.pull(x, e)| == k
      modifies this`data
      ensures data == Touched(handle, old(data), keys, 0, |keys|)
      ensures |vals| == |keys| * k && vals == AllAnswers(handle, old(data), keys, |keys|)
    {
      hide Touched, AllAnswers, Lookup;
      ghost var m := data;
      vals := [];
      NoAnswers(handle, m, keys);
      for i := 0 to |keys|
        invariant data == Touched(handle, m, keys, 0, i)
        invariant |vals| == i * k && vals == AllAnswers(handle, m, keys, i)
      {
        TouchedKeepsLookup(handle, m, keys, 0, i, keys[i]);
        OneAnswer(handle, m, keys, i);
        var pull := handle.pull(keys[i], Lookup(handle, data, keys[i]));
        data := data[keys[i] := Lookup(handle, data, keys[i])];
        vals := vals + pull;
      }
    }

    /** HandlePull with a dynamic number of values per key: the buffer grows until every answer fits. */
    method HandlePullDynamic(keys: seq<Key>) returns (vals: seq<Value>, sizes: seq<nat>)
      modifies this`data
      ensures data == Touched(handle, old(data), keys, 0, |keys|)
      ensures |sizes| == |keys|
      ensures forall i: nat {:trigger keys[i]} :: i < |keys| ==>
                sizes[i] == |handle.pull(keys[i], Lookup(handle, old(data), keys[i]))|
      ensures vals == AllAnswers(handle, old(data), keys, |keys|)
    {
      hide Touched, AllAnswers, Lookup;
      var buffer := new Value[|keys| * k](i => 0.0);
      var start: nat := 0;
      sizes := [];
      ghost var m := data;
      NoAnswers(handle, m, keys);
      for i := 0 to |keys|
        invariant data == Touched(handle, m, keys, 0, i)
        invariant |sizes| == i && start <= buffer.Length && fresh(buffer)
        invariant forall j: nat {:trigger keys[j]} :: j < i ==> sizes[j] == |handle.pull(keys[j], Lookup(handle, m, keys[j]))|
        invariant buffer[..start] == AllAnswers(handle, m, keys, i)
      {
        buffer := Grow(buffer, start, start + k);
        TouchedKeepsLookup(handle, m, keys, 0, i, keys[i]);
        OneAnswer(handle, m, keys, i);
        var pull := handle.pull(keys[i], Lookup(handle, data, keys[i]));
        data := data[keys[i] := Lookup(handle, data, keys[i])];
        buffer := Put(buffer, start, pull);
        start := start + |pull|;
        sizes := sizes + [|pull|];
      }
      vals := buffer[..start];
    }
  }

  lemma NoAnswers(h: Handle, m: Table, keys: seq<Key>)
    ensures Touched(h, m, keys, 0, 0) == m && AllAnswers(h, m, keys, 0) == []
  {
  }

  lemma OneAnswer(h: Handle, m: Table, keys: seq<Key>, i: nat)
    requires i < |keys|
    ensures var before := Touched(h, m, keys, 0, i);
      Touched(h, m, keys, 0, i + 1) == before[keys[i] := Lookup(h, before, keys[i])]
    ensures AllAnswers(h, m, keys, i + 1) == AllAnswers(h, m, keys, i) + h.pull(keys[i], Lookup(h, m, keys[i]))
  {
  }

  /** Copies an answer behind the first `start` values, growing the buffer if it does not fit. */
  method Put(buffer: array<Value>, start: nat, pull: seq<Value>) returns (grown: array<Value>)
    requires start <= buffer.Length
    modifies buffer
    ensures grown == buffer || fresh(grown)
    ensures start + |pull| <= grown.Length && grown[..start + |pull|] == old(buffer[..start]) + pull
  {
    grown := Grow(buffer, start, start + |pull|);
    ghost var front := grown[..start];
    forall j | 0 <= j < |pull| {
      grown[start + j] := pull[j];
    }
    assert grown[..start] == front;
  }

  /** val.resize(val.size() * 2 + 5) until the size is reached; the contents stay. */
  method Grow(buffer: array<Value>, used: nat, needed: nat) returns (grown: array<Value>)
    requires used <= buffer.Length
    ensures grown.Length >= needed && grown.Length >= buffer.Length
    ensures grown[..used] == buffer[..used]
    ensures grown == buffer || fresh(grown)
  {
    var size := buffer.Length;
    while size < needed
      invariant size >= buffer.Length
    {
      size := size * 2 + 5;
    }
    if size == buffer.Length {
      return buffer;
    }
    grown := new Value[size](i => 0.0);
    forall i | 0 <= i < buffer.Length {
      grown[i] := buffer[i];
    }
    assert grown[..used] == buffer[..used];
  }

  /** The answers of the first n keys, one after the other. */
  ghost function AllAnswers(h: Handle, m: Table, keys: seq<Key>, n: nat): seq<Value>
    requires n <= |keys|
  {
    if n == 0 then [] else AllAnswers(h, m, keys, n - 1) + h.pull(keys[n - 1], Lookup(h, m, keys[n - 1]))
  }

  lemma {:induction false} TouchedKeepsLookup(h: Handle, m: Table, keys: seq<Key>, lo: nat, hi: nat, x: Key)
    requires lo <= hi <= |keys|
    ensures Lookup(h, Touched(h, m, keys, lo, hi), x) == Lookup(h, m, x)
    ensures x in Touched(h, m, keys, lo, hi) <==> x in m || Occurs(keys, lo, hi, x)
    decreases hi - lo
  {
    if lo < hi {
      TouchedKeepsLookup(h, m, keys, lo, hi - 1, x);
      TouchedKeepsLookup(h, m, keys, lo, hi - 1, keys[hi - 1]);
    }
  }

  /** x is one of keys[lo..hi]. */
  ghost predicate Occurs(keys: seq<Key>, lo: nat, hi: nat, x: Key)
    requires hi <= |keys|
  {
    exists i :: lo <= i < hi && keys[i] == x
  }

  // ---- a push seen from one key ----

  ghost predicate Agree(m1: Table, m2: Table, x: Key) {
    (x in m1 <==> x in m2) && (x in m1 ==> m1[x] == m2[x])
  }

  lemma {:induction false} PushedAgree(h: Handle, m1: Table, m2: Table, keys: seq<Key>, vals: seq<Value>, k: nat, lo: nat, hi: nat, x: Key)
    requires lo <= hi <= |keys| && |vals| == |keys| * k && Agree(m1, m2, x)
    ensures Agree(Pushed(h, m1, keys, vals, k, lo, hi), Pushed(h, m2, keys, vals, k, lo, hi), x)
    decreases hi - lo
  {
    if lo < hi {
      PushedAgree(h, m1, m2, keys, vals, k, lo, hi - 1, x);
    }
  }

  lemma {:induction false} PushedSkip(h: Handle, m: Table, keys: seq<Key>, vals: seq<Value>, k: nat, lo: nat, hi: nat, x: Key)
    requires lo <= hi <= |keys| && |vals| == |keys| * k && forall i :: lo <= i < hi ==> keys[i] != x
    ensures Agree(Pushed(h, m, keys, vals, k, lo, hi), m, x)
    decreases hi - lo
  {
    if lo < hi {
      PushedSkip(h, m, keys, vals, k, lo, hi - 1, x);
    }
  }

  lemma {:induction false} PushedSplit(h: Handle, m: Table, keys: seq<Key>, vals: seq<Value>, k: nat, lo: nat, mid: nat, hi: nat)
    requires lo <= mid <= hi <= |keys| && |vals| == |keys| * k
    ensures Pushed(h, m, keys, vals, k, lo, hi) ==
              Pushed(h, Pushed(h, m, keys, vals, k, lo, mid), keys, vals, k, mid, hi)
    decreases hi - mid
  {
    if mid < hi {
      PushedSplit(h, m, keys, vals, k, lo, mid, hi - 1);
    }
  }

  /** What a whole push does to x is what the part a .. b-1 does, when x occurs nowhere else. */
  lemma PushedLocal(h: Handle, m: Table, bucket: Table, keys: seq<Key>, vals: seq<Value>, k: nat, a: nat, b: nat, x: Key)
    requires a <= b <= |keys| && |vals| == |keys| * k && Agree(m, bucket, x)
    requires forall i :: 0 <= i < |keys| && keys[i] == x ==> a <= i < b
    ensures Agree(Pushed(h, m, keys, vals, k, 0, |keys|), Pushed(h, bucket, keys, vals, k, a, b), x)
  {
    hide Pushed;
    var n := |keys|;
    var m1 := Pushed(h, m, keys, vals, k, 0, a);
    var m2 := Pushed(h, m1, keys, vals, k, a, b);
    PushedSplit(h, m, keys, vals, k, 0, a, n);
    PushedSplit(h, m1, keys, vals, k, a, b, n);
    PushedSkip(h, m, keys, vals, k, 0, a, x);
    PushedAgree(h, m1, bucket, keys, vals, k, a, b, x);
    PushedSkip(h, m2, keys, vals, k, b, n, x);
  }

  /** Pushing creates entries for pushed keys only. */
  lemma {:induction false} PushedKeys(h: Handle, m: Table, keys: seq<Key>, vals: seq<Value>, k: nat, lo: nat, hi: nat, x: Key)
    requires lo <= hi <= |keys| && |vals| == |keys| * k
    ensures x in Pushed(h, m, keys, vals, k, lo, hi) ==> x in m || exists i :: lo <= i < hi && keys[i] == x
    decreases hi - lo
  {
    if lo < hi {
      PushedKeys(h, m, keys, vals, k, lo, hi - 1, x);
    }
  }
}
