/** The host heap of the WebAssembly runner (examples/wasm_runner.js): a bump allocator over
    a growing memory, handles that pack an offset and a length into one i64, arrays and
    strings. Runs of host calls refine a store of values in which nothing is ever shared. */
module WasmHeap {
  import opened Wrappers

  const TWO_31: int := 0x8000_0000
  const TWO_32: int := 0x1_0000_0000
  const TWO_63: int := 0x8000_0000_0000_0000
  const TWO_64: int := 0x1_0000_0000_0000_0000

  type byte = x: int | 0 <= x < 256
  type i64 = x: int | -TWO_63 <= x < TWO_63

  const PAGE: nat := 65536
  const HEAP_START: nat := 32 * 1024

  /** What a bitwise operator of JavaScript makes of a number. */
  function ToInt32(x: int): int {
    var m := x % TWO_32;
    if m >= TWO_31 then m - TWO_32 else m
  }

  /** What a BigInt becomes when it crosses into WebAssembly, or into eight bytes. */
  function ToInt64(x: int): i64 {
    var m := x % TWO_64;
    if m >= TWO_63 then m - TWO_64 else m
  }

  // ----- handles -----

  /** The shifted length has no bit below 32, so that the `|` is a sum. */
  function Pack(offset: int, len: int): i64 {
    ToInt64(len * TWO_32 + offset % TWO_32)
  }

  function Unpack(handle: int): (nat, nat) {
    (handle % TWO_32, (handle / TWO_32) % TWO_32)
  }

  lemma SplitWord(len: int, low: int, k: int)
    requires 0 <= low < TWO_32
    ensures (len * TWO_32 + low - k * TWO_64) % TWO_32 == low
    ensures (len * TWO_32 + low - k * TWO_64) / TWO_32 == len - k * TWO_32
  {
    assert len * TWO_32 + low - k * TWO_64 == (len - k * TWO_32) * TWO_32 + low;
  }

  /** A handle holds the offset in its low word and the length in its high word; the signed wrap
      loses nothing of either. */
  lemma UnpackOfPack(offset: int, len: int)
    ensures Unpack(Pack(offset, len)) == (offset % TWO_32, len % TWO_32)
    ensures Pack(offset, len) % TWO_32 == offset % TWO_32
    ensures (Pack(offset, len) - offset % TWO_32) % TWO_64 == (len % TWO_32) * TWO_32
  {
    var x := len * TWO_32 + offset % TWO_32;
    var k := x / TWO_64 + if x % TWO_64 >= TWO_63 then 1 else 0;
    assert ToInt64(x) == x - k * TWO_64;
    SplitWord(len, offset % TWO_32, k);
    assert (len - k * TWO_32) % TWO_32 == len % TWO_32;
    HighWord(len, k);
  }

  lemma HighWord(len: int, k: int)
    ensures (len * TWO_32 - k * TWO_64) % TWO_64 == (len % TWO_32) * TWO_32
  {
    var q := len / TWO_32;
    assert len * TWO_32 - k * TWO_64 == (q - k) * TWO_64 + (len % TWO_32) * TWO_32;
  }

  /** A handle round-trips exactly when both its words are 32-bit. */
  lemma PackRoundTripsExactly(offset: int, len: int)
    ensures Unpack(Pack(offset, len)) == (offset, len) <==> 0 <= offset < TWO_32 && 0 <= len < TWO_32
  {
    UnpackOfPack(offset, len);
  }

  // ----- cells of eight bytes -----

  function Bytes(u: nat, n: nat): (r: seq<byte>)
    ensures |r| == n
  {
    if n == 0 then [] else [u % 256] + Bytes(u / 256, n - 1)
  }

  function FromBytes(b: seq<byte>): nat {
    if b == [] then 0 else b[0] + 256 * FromBytes(b[1..])
  }

  function Pow256(n: nat): nat {
    if n == 0 then 1 else 256 * Pow256(n - 1)
  }

  lemma {:induction false} BytesRoundTrip(u: nat, n: nat)
    requires u < Pow256(n)
    ensures FromBytes(Bytes(u, n)) == u
    decreases n
  {
    if n > 0 {
      BytesRoundTrip(u / 256, n - 1);
    }
  }

  function Put64(mem: seq<byte>, at: nat, v: int): (r: seq<byte>)
    requires at + 8 <= |mem|
    ensures |r| == |mem|
  {
    mem[..at] + Bytes(v % TWO_64, 8) + mem[at + 8..]
  }

  function Get64(mem: seq<byte>, at: nat): i64
    requires at + 8 <= |mem|
  {
    ToInt64(FromBytes(mem[at..at + 8]))
  }

  lemma WordSize()
    ensures Pow256(8) == TWO_64
  {
    assert Pow256(4) == TWO_32;
  }

  lemma GetOfPut(mem: seq<byte>, at: nat, v: i64)
    requires at + 8 <= |mem|
    ensures Get64(Put64(mem, at, v), at) == v
  {
    WordSize();
    hide Bytes, FromBytes, Pow256;
    assert Put64(mem, at, v)[at..at + 8] == Bytes(v % TWO_64, 8);
    BytesRoundTrip(v % TWO_64, 8);
  }

  /** A write leaves every range apart from its own eight bytes alone. */
  lemma PutElsewhere(mem: seq<byte>, at: nat, v: int, lo: nat, hi: nat)
    requires at + 8 <= |mem| && lo <= hi <= |mem| && (hi <= at || at + 8 <= lo)
    ensures Put64(mem, at, v)[lo..hi] == mem[lo..hi]
  {
    assert forall k | lo <= k < hi :: Put64(mem, at, v)[k] == mem[k];
  }

  // ----- arrays in memory -----

  function WriteArray(mem: seq<byte>, at: nat, vs: seq<int>): (r: seq<byte>)
    requires at + 8 * |vs| <= |mem|
    ensures |r| == |mem|
    decreases |vs|
  {
    if vs == [] then mem
    else Put64(WriteArray(mem, at, vs[..|vs| - 1]), at + 8 * (|vs| - 1), vs[|vs| - 1])
  }

  function ReadArray(mem: seq<byte>, at: nat, n: nat): (r: seq<i64>)
    requires at + 8 * n <= |mem|
    ensures |r| == n
  {
    seq(n, i requires 0 <= i < n => Get64(mem, at + 8 * i))
  }

  lemma {:induction false} WriteElsewhere(mem: seq<byte>, at: nat, vs: seq<int>, lo: nat, hi: nat)
    requires at + 8 * |vs| <= |mem| && lo <= hi <= |mem| && (hi <= at || at + 8 * |vs| <= lo)
    ensures WriteArray(mem, at, vs)[lo..hi] == mem[lo..hi]
    decreases |vs|
  {
    hide Put64;
    if vs != [] {
      var init := vs[..|vs| - 1];
      WriteElsewhere(mem, at, init, lo, hi);
      PutElsewhere(WriteArray(mem, at, init), at + 8 * |init|, vs[|init|], lo, hi);
    }
  }

  lemma SliceOfSlice(mem: seq<byte>, at: nat, n: nat, i: nat)
    requires at + 8 * n <= |mem| && i < n
    ensures mem[at + 8 * i..at + 8 * i + 8] == mem[at..at + 8 * n][8 * i..8 * i + 8]
  {
    var a, b, c := at + 8 * i, at + 8 * n, 8 * i;
    assert 0 <= c && c + 8 <= b - at;
    var block, whole := mem[at..b], mem[a..a + 8];
    var part := block[c..c + 8];
    forall j | 0 <= j < 8
      ensures whole[j] == part[j]
    {
      assert mem[a + j] == block[c + j];
    }
    assert whole == part;
  }

  /** Reads of a range depend on the bytes of that range only. */
  lemma SameBytesSameArray(mem: seq<byte>, mem': seq<byte>, at: nat, n: nat)
    requires at + 8 * n <= |mem| && at + 8 * n <= |mem'| && mem'[at..at + 8 * n] == mem[at..at + 8 * n]
    ensures ReadArray(mem', at, n) == ReadArray(mem, at, n)
  {
    forall i | 0 <= i < n
      ensures Get64(mem', at + 8 * i) == Get64(mem, at + 8 * i)
    {
      SliceOfSlice(mem', at, n, i);
      SliceOfSlice(mem, at, n, i);
    }
  }

  lemma {:induction false} ReadOfWrite(mem: seq<byte>, at: nat, vs: seq<i64>)
    requires at + 8 * |vs| <= |mem|
    ensures ReadArray(WriteArray(mem, at, vs), at, |vs|) == vs
    decreases |vs|
  {
    if vs != [] {
      var init, last := vs[..|vs| - 1], vs[|vs| - 1];
      var before := WriteArray(mem, at, init);
      var mem' := Put64(before, at + 8 * |init|, last);
      ReadOfWrite(mem, at, init);
      PutElsewhere(before, at + 8 * |init|, last, at, at + 8 * |init|);
      SameBytesSameArray(before, mem', at, |init|);
      GetOfPut(before, at + 8 * |init|, last);
      ReadOneMore(mem', at, |init|);
      assert vs == init + [last];
    }
  }

  lemma ReadOneMore(mem: seq<byte>, at: nat, n: nat)
    requires at + 8 * (n + 1) <= |mem|
    ensures ReadArray(mem, at, n + 1) == ReadArray(mem, at, n) + [Get64(mem, at + 8 * n)]
  {
    hide Get64;
  }

  /** A write into one element changes that element and no other. */
  lemma ReadOfPut(mem: seq<byte>, at: nat, n: nat, k: nat, v: i64)
    requires at + 8 * n <= |mem| && k < n
    ensures ReadArray(Put64(mem, at + 8 * k, v), at, n) == ReadArray(mem, at, n)[k := v]
  {
    var mem' := Put64(mem, at + 8 * k, v);
    GetOfPut(mem, at + 8 * k, v);
    forall i | 0 <= i < n && i != k
      ensures Get64(mem', at + 8 * i) == Get64(mem, at + 8 * i)
    {
      PutElsewhere(mem, at + 8 * k, v, at + 8 * i, at + 8 * i + 8);
    }
  }

  // ----- the allocator -----

  datatype Heap = Heap(mem: seq<byte>, ptr: int)

  function Zeros(n: nat): (r: seq<byte>)
    ensures |r| == n
  {
    seq(n, _ => 0)
  }

  /** Whole pages are added; growing past the limit throws. */
  function Grown(mem: seq<byte>, needed: int, limit: nat): Option<seq<byte>> {
    if needed <= |mem| then Some(mem)
    else
      var extra := (needed - |mem| + PAGE - 1) / PAGE * PAGE;
      if |mem| + extra <= limit then Some(mem + Zeros(extra)) else None
  }

  /** `(p + 7) & ~7`, on 32-bit numbers. */
  function Align(p: int): int {
    var q := ToInt32(p + 7);
    q - q % 8
  }

  /** The block starts at the old pointer. */
  function Bump(h: Heap, n: nat, limit: nat): Option<Heap> {
    match Grown(h.mem, h.ptr + n, limit)
    case Some(mem) => Some(Heap(mem, Align(h.ptr + n)))
    case None => None
  }

  /** What an allocation leaves behind, also when the growth throws. */
  function Bumped(h: Heap, n: nat, limit: nat): Heap {
    match Bump(h, n, limit)
    case Some(g) => g
    case None => h
  }

  lemma GrownCovers(mem: seq<byte>, needed: int, limit: nat)
    requires Grown(mem, needed, limit).Some?
    ensures var r := Grown(mem, needed, limit).value;
            && mem <= r && needed <= |r| && (|r| - |mem|) % PAGE == 0
            && (mem != r ==> |r| - PAGE < needed)
  {
    var extra := (needed - |mem| + PAGE - 1) / PAGE * PAGE;
    if needed > |mem| {
      assert extra % PAGE == 0;
    }
  }

  /** The pointer moves past the block exactly as long as it stays within 31 bits. */
  lemma AlignExactly(p: nat)
    ensures p <= Align(p) <==> p + 7 < TWO_31
    ensures p + 7 < TWO_31 ==> Align(p) < p + 8 && Align(p) % 8 == 0 && Align(p) < TWO_31
  {
  }

  /** Past that, the next block starts before the end of this one. */
  lemma NextBlockIsApartExactly(h: Heap, n: nat, limit: nat)
    requires 0 <= h.ptr && Bump(h, n, limit).Some?
    ensures h.ptr + n <= Bump(h, n, limit).value.ptr <==> h.ptr + n + 7 < TWO_31
  {
    AlignExactly(h.ptr + n);
  }

  // ----- the host calls -----

  /** The results of calls: none when the host throws, which ends the run. */
  datatype Called = Called(heap: Heap, handle: int)

  function ArrayNew(h: Heap, count: nat, limit: nat): Option<Called> {
    match Bump(h, 8 * count, limit)
    case None => None
    case Some(g) =>
      if h.ptr < 0 || h.ptr + 8 * count > |g.mem| then None
      else Some(Called(g.(mem := g.mem[..h.ptr] + Zeros(8 * count) + g.mem[h.ptr + 8 * count..]), Pack(h.ptr, count)))
  }

  function ArrayGet(h: Heap, handle: int, index: int): Option<i64> {
    var at := Unpack(handle).0 + index * 8;
    if at < 0 || at + 8 > |h.mem| then None else Some(Get64(h.mem, at))
  }

  function ArraySet(h: Heap, handle: int, index: int, v: int): Option<Heap> {
    var at := Unpack(handle).0 + index * 8;
    if at < 0 || at + 8 > |h.mem| then None else Some(h.(mem := Put64(h.mem, at, v)))
  }

  function ReadValues(h: Heap, handle: int): Option<seq<i64>> {
    var (at, count) := Unpack(handle);
    if count > 0 && at + 8 * count > |h.mem| then None
    else if count == 0 then Some([])
    else Some(ReadArray(h.mem, at, count))
  }

  function WriteValues(h: Heap, vs: seq<int>, limit: nat): Option<Called> {
    match Bump(h, 8 * |vs|, limit)
    case None => None
    case Some(g) =>
      if vs == [] then Some(Called(g, Pack(h.ptr, 0)))
      else if h.ptr < 0 || h.ptr + 8 * |vs| > |g.mem| then None
      else Some(Called(g.(mem := WriteArray(g.mem, h.ptr, vs)), Pack(h.ptr, |vs|)))
  }

  function ArrayPush(h: Heap, handle: int, v: int, limit: nat): Option<Called> {
    match ReadValues(h, handle)
    case None => None
    case Some(vs) => WriteValues(h, vs + [v], limit)
  }

  function Blit(mem: seq<byte>, at: nat, bytes: seq<byte>): (r: seq<byte>)
    requires at + |bytes| <= |mem|
    ensures |r| == |mem|
  {
    mem[..at] + bytes + mem[at + |bytes|..]
  }

  /** The second source is read after the first has been copied. */
  function StringConcat(h: Heap, off1: nat, len1: nat, off2: nat, len2: nat, limit: nat): Option<Called> {
    match Bump(h, len1 + len2, limit)
    case None => None
    case Some(g) =>
      if off1 + len1 > |g.mem| || off2 + len2 > |g.mem| || h.ptr < 0 || h.ptr + len1 + len2 > |g.mem| then None
      else
        var once := Blit(g.mem, h.ptr, g.mem[off1..off1 + len1]);
        var twice := Blit(once, h.ptr + len1, once[off2..off2 + len2]);
        Some(Called(g.(mem := twice), Pack(h.ptr, len1 + len2)))
  }

  class WasmHost {
    var memory: seq<byte>
    var heapPtr: int
    /** The size the memory may not grow past. */
    const limit: nat

    constructor (initial: seq<byte>, limit: nat)
      ensures State() == Heap(initial, HEAP_START) && this.limit == limit
    {
      memory, heapPtr, this.limit := initial, HEAP_START, limit;
    }

    function State(): Heap
      reads this
    {
      Heap(memory, heapPtr)
    }

    method BumpAlloc(nBytes: nat) returns (out: Option<int>)
      modifies this
      ensures out.Some? <==> Bump(old(State()), nBytes, limit).Some?
      ensures out.Some? ==> out.value == old(heapPtr)
      ensures State() == Bumped(old(State()), nBytes, limit)
    {
      var needed := heapPtr + nBytes;
      var currentBytes := |memory|;
      if needed > currentBytes {
        var extraPages := (needed - currentBytes + PAGE - 1) / PAGE;
        if currentBytes + extraPages * PAGE > limit {
          return None;
        }
        memory := memory + Zeros(extraPages * PAGE);
      }
      out := Some(heapPtr);
      heapPtr := heapPtr + nBytes;
      heapPtr := Align(heapPtr);
    }

    method WriteArrayToMem(values: seq<int>) returns (r: Option<int>)
      modifies this
      ensures r.Some? <==> WriteValues(old(State()), values, limit).Some?
      ensures r.Some? ==> Called(State(), r.value) == WriteValues(old(State()), values, limit).value
      ensures r.None? ==> State() == Bumped(old(State()), 8 * |values|, limit)
    {
      hide Put64, Align, Grown, Pack;
      var offset := BumpAlloc(8 * |values|);
      if offset.None? {
        return None;
      }
      ghost var g := State();
      if offset.value >= 0 {
        BumpKeeps(old(State()), 8 * |values|, limit);
      }
      for i := 0 to |values|
        invariant heapPtr == g.ptr && |memory| == |g.mem|
                  && (offset.value >= 0 ==> offset.value + 8 * |values| <= |memory|)
        invariant i > 0 ==> 0 <= offset.value && offset.value + 8 * i <= |memory|
        invariant 0 <= offset.value && offset.value + 8 * i <= |g.mem|
                  ==> memory == WriteArray(g.mem, offset.value, values[..i])
        invariant i == 0 ==> memory == g.mem
      {
        var at := offset.value + i * 8;
        if at < 0 || at + 8 > |memory| {
          return None;
        }
        memory := Put64(memory, at, values[i]);
        assert values[..i + 1][..i] == values[..i];
      }
      assert values[..|values|] == values;
      r := Some(Pack(offset.value, |values|));
    }

    method ReadArrayFromMem(packed: int) returns (r: Option<seq<i64>>)
      ensures r == ReadValues(State(), packed)
    {
      var (offset, count) := Unpack(packed);
      var out: seq<i64> := [];
      for i := 0 to count
        invariant i > 0 ==> offset + 8 * i <= |memory|
        invariant offset + 8 * i <= |memory| ==> out == ReadArray(memory, offset, i)
        invariant i == 0 ==> out == []
      {
        var at := offset + i * 8;
        if at + 8 > |memory| {
          return None;
        }
        ReadOneMore(memory, offset, i);
        out := out + [Get64(memory, at)];
      }
      r := Some(out);
    }

    method KryosArrayNew(count: nat) returns (r: Option<int>)
      modifies this
      ensures r.Some? <==> ArrayNew(old(State()), count, limit).Some?
      ensures r.Some? ==> Called(State(), r.value) == ArrayNew(old(State()), count, limit).value
      ensures r.None? ==> State() == Bumped(old(State()), 8 * count, limit)
    {
      var bytes := count * 8;
      var offset := BumpAlloc(bytes);
      if offset.None? || offset.value < 0 || offset.value + bytes > |memory| {
        return None;
      }
      memory := memory[..offset.value] + Zeros(bytes) + memory[offset.value + bytes..];
      r := Some(Pack(offset.value, count));
    }

    method KryosArrayGet(packed: int, index: int) returns (r: Option<i64>)
      ensures r == ArrayGet(State(), packed, index)
    {
      var at := Unpack(packed).0 + index * 8;
      if at < 0 || at + 8 > |memory| {
        return None;
      }
      r := Some(Get64(memory, at));
    }

    method KryosArraySet(packed: int, index: int, value: int) returns (ok: bool)
      modifies this
      ensures ok <==> ArraySet(old(State()), packed, index, value).Some?
      ensures State() == if ok then ArraySet(old(State()), packed, index, value).value else old(State())
    {
      var at := Unpack(packed).0 + index * 8;
      if at < 0 || at + 8 > |memory| {
        return false;
      }
      memory := Put64(memory, at, value);
      ok := true;
    }

    method KryosArrayPush(packed: int, value: int) returns (r: Option<int>)
      modifies this
      ensures r.Some? <==> ArrayPush(old(State()), packed, value, limit).Some?
      ensures r.Some? ==> Called(State(), r.value) == ArrayPush(old(State()), packed, value, limit).value
      ensures r.None? ==> State() == match ReadValues(old(State()), packed)
                                     case Some(vs) => Bumped(old(State()), 8 * (|vs| + 1), limit)
                                     case None => old(State())
    {
      var values := ReadArrayFromMem(packed);
      if values.None? {
        return None;
      }
      r := WriteArrayToMem(values.value + [value]);
    }

    method KryosStringConcat(off1: nat, len1: nat, off2: nat, len2: nat) returns (r: Option<int>)
      modifies this
      ensures r.Some? <==> StringConcat(old(State()), off1, len1, off2, len2, limit).Some?
      ensures r.Some? ==> Called(State(), r.value) == StringConcat(old(State()), off1, len1, off2, len2, limit).value
      ensures r.None? ==> State() == Bumped(old(State()), len1 + len2, limit)
    {
      hide Align, Grown, Pack, Blit;
      var totalLen := len1 + len2;
      var newOffset := BumpAlloc(totalLen);
      if newOffset.None? || off1 + len1 > |memory| || off2 + len2 > |memory|
         || newOffset.value < 0 || newOffset.value + totalLen > |memory| {
        return None;
      }
      memory := Blit(memory, newOffset.value, memory[off1..off1 + len1]);
      memory := Blit(memory, newOffset.value + len1, memory[off2..off2 + len2]);
      r := Some(Pack(newOffset.value, totalLen));
    }
  }

  // ----- the store that runs of calls refine -----

  /** A live object, by value. */
  datatype Obj = Arr(values: seq<i64>) | Str(text: seq<byte>) {
    function Length(): nat {
      if Arr? then |values| else |text|
    }

    function Size(): nat {
      if Arr? then 8 * |values| else |text|
    }
  }

  /** A string to concatenate: a live one, or bytes of the module's own data. */
  datatype Source = Object(i: nat) | Data(at: nat, len: nat)

  datatype Op =
    | New(count: nat)
    | Set(i: nat, k: nat, v: i64)
    | PushOn(i: nat, v: i64)
    | Concat(a: Source, b: Source)

  predicate SourceOk(data: seq<byte>, objs: seq<Obj>, s: Source) {
    match s
    case Object(i) => i < |objs| && objs[i].Str?
    case Data(at, len) => at + len <= |data|
  }

  /** Calls with live handles and indices in bounds. */
  predicate Allowed(data: seq<byte>, objs: seq<Obj>, op: Op) {
    match op
    case New(_) => true
    case Set(i, k, _) => i < |objs| && objs[i].Arr? && k < |objs[i].values|
    case PushOn(i, _) => i < |objs| && objs[i].Arr?
    case Concat(a, b) => SourceOk(data, objs, a) && SourceOk(data, objs, b)
  }

  function TextOf(data: seq<byte>, objs: seq<Obj>, s: Source): seq<byte>
    requires SourceOk(data, objs, s)
  {
    match s
    case Object(i) => objs[i].text
    case Data(at, len) => data[at..at + len]
  }

  /** The object a call makes; `Set` makes none. */
  function Made(data: seq<byte>, objs: seq<Obj>, op: Op): Obj
    requires Allowed(data, objs, op) && !op.Set?
  {
    match op
    case New(count) => Arr(seq(count, _ => 0))
    case PushOn(i, v) => Arr(objs[i].values + [v])
    case Concat(a, b) => Str(TextOf(data, objs, a) + TextOf(data, objs, b))
  }

  /** Only `Set` touches an object that exists; everything else adds one. */
  function Apply(data: seq<byte>, objs: seq<Obj>, op: Op): seq<Obj>
    requires Allowed(data, objs, op)
  {
    if op.Set? then objs[op.i := Arr(objs[op.i].values[op.k := op.v])] else objs + [Made(data, objs, op)]
  }

  // ----- what a handle holds -----

  /** The handle's block is aligned, above the data, inside memory, and holds the object. */
  predicate Holds(mem: seq<byte>, handle: int, o: Obj) {
    var (off, len) := Unpack(handle);
    && len == o.Length() && off % 8 == 0 && HEAP_START <= off && off + o.Size() <= |mem|
    && match o
       case Arr(vs) => ReadArray(mem, off, len) == vs
       case Str(text) => mem[off..off + len] == text
  }

  function Start(handle: int): nat {
    Unpack(handle).0
  }

  lemma HoldsFrame(mem: seq<byte>, mem': seq<byte>, handle: int, o: Obj)
    requires Holds(mem, handle, o) && Start(handle) + o.Size() <= |mem'|
    requires mem'[Start(handle)..Start(handle) + o.Size()] == mem[Start(handle)..Start(handle) + o.Size()]
    ensures Holds(mem', handle, o)
  {
    if o.Arr? {
      SameBytesSameArray(mem, mem', Start(handle), |o.values|);
    }
  }

  /** Every object is where its handle says; blocks follow one another without overlap below the
      pointer; the module's data is untouched. */
  ghost predicate Represents(data: seq<byte>, h: Heap, handles: seq<int>, objs: seq<Obj>) {
    && |handles| == |objs|
    && |data| <= HEAP_START && data <= h.mem
    && HEAP_START <= h.ptr < TWO_31 && h.ptr % 8 == 0
    && (forall i | 0 <= i < |objs| :: Holds(h.mem, handles[i], objs[i]) && Start(handles[i]) + objs[i].Size() <= h.ptr)
    && (forall i, j | 0 <= i < j < |objs| :: Start(handles[i]) + objs[i].Size() <= Start(handles[j]))
  }

  /** Up to `n` bytes of the two memories agree. */
  predicate SameBelow(mem: seq<byte>, mem': seq<byte>, n: int) {
    |mem| <= |mem'| && forall k | 0 <= k < n && k < |mem| :: mem'[k] == mem[k]
  }

  lemma SameBelowSlice(mem: seq<byte>, mem': seq<byte>, n: int, lo: nat, hi: nat)
    requires SameBelow(mem, mem', n) && lo <= hi <= n && hi <= |mem|
    ensures mem'[lo..hi] == mem[lo..hi]
  {
  }

  /** A new block at the pointer, everything below it kept. */
  lemma AllocationRepresents(data: seq<byte>, h: Heap, handles: seq<int>, objs: seq<Obj>, mem': seq<byte>, handle: int,
                             o: Obj)
    requires Represents(data, h, handles, objs)
    requires SameBelow(h.mem, mem', h.ptr) && Holds(mem', handle, o) && Start(handle) == h.ptr
    requires h.ptr + o.Size() + 7 < TWO_31
    ensures Represents(data, Heap(mem', Align(h.ptr + o.Size())), handles + [handle], objs + [o])
  {
    AlignExactly(h.ptr + o.Size());
    var handles', objs' := handles + [handle], objs + [o];
    forall i | 0 <= i < |objs|
      ensures Holds(mem', handles[i], objs[i])
    {
      SameBelowSlice(h.mem, mem', h.ptr, Start(handles[i]), Start(handles[i]) + objs[i].Size());
      HoldsFrame(h.mem, mem', handles[i], objs[i]);
    }
    assert data <= mem' by {
      SameBelowSlice(h.mem, mem', h.ptr, 0, |data|);
    }
    hide Holds, Align, Start;
  }

  // ----- one call -----

  /** What the run needs of one call: its block stays within 31 bits. */
  predicate Fits(data: seq<byte>, h: Heap, objs: seq<Obj>, op: Op)
    requires Allowed(data, objs, op)
  {
    op.Set? || h.ptr + Made(data, objs, op).Size() + 7 < TWO_31
  }

  datatype World = World(heap: Heap, handles: seq<int>)

  function Address(handles: seq<int>, s: Source): nat
    requires s.Object? ==> s.i < |handles|
  {
    match s
    case Object(i) => Start(handles[i])
    case Data(at, _) => at
  }

  function SourceLength(handles: seq<int>, s: Source): nat
    requires s.Object? ==> s.i < |handles|
  {
    match s
    case Object(i) => Unpack(handles[i]).1
    case Data(_, len) => len
  }

  predicate Named(handles: seq<int>, op: Op) {
    match op
    case New(_) => true
    case Set(i, _, _) => i < |handles|
    case PushOn(i, _) => i < |handles|
    case Concat(a, b) => (a.Object? ==> a.i < |handles|) && (b.Object? ==> b.i < |handles|)
  }

  /** The host call on real handles; none if it throws. */
  function Step(w: World, op: Op, limit: nat): Option<World>
    requires Named(w.handles, op)
  {
    if op.Set? then
      match ArraySet(w.heap, w.handles[op.i], op.k, op.v)
      case None => None
      case Some(h) => Some(w.(heap := h))
    else
      var made := match op
        case New(count) => ArrayNew(w.heap, count, limit)
        case PushOn(i, v) => ArrayPush(w.heap, w.handles[i], v, limit)
        case Concat(a, b) => StringConcat(w.heap, Address(w.handles, a), SourceLength(w.handles, a),
                                          Address(w.handles, b), SourceLength(w.handles, b), limit)
        case Set(_, _, _) => None;
      match made
      case None => None
      case Some(c) => Some(World(c.heap, w.handles + [c.handle]))
  }

  lemma BumpKeeps(h: Heap, n: nat, limit: nat)
    requires Bump(h, n, limit).Some? && h.ptr >= 0
    ensures var g := Bump(h, n, limit).value;
            h.mem <= g.mem && h.ptr + n <= |g.mem| && g.ptr == Align(h.ptr + n)
  {
    GrownCovers(h.mem, h.ptr + n, limit);
  }

  lemma PackedStart(off: nat, len: nat)
    requires off < TWO_32 && len < TWO_32
    ensures Start(Pack(off, len)) == off && Unpack(Pack(off, len)) == (off, len)
  {
    UnpackOfPack(off, len);
  }

  /** Bytes written from the pointer on leave what is below it. */
  lemma AboveIsSameBelow(mem: seq<byte>, grown: seq<byte>, mem': seq<byte>, ptr: nat)
    requires mem <= grown && |mem'| == |grown| && ptr <= |grown| && mem'[..ptr] == grown[..ptr]
    ensures SameBelow(mem, mem', ptr)
  {
    forall k | 0 <= k < ptr && k < |mem|
      ensures mem'[k] == mem[k]
    {
      assert mem'[..ptr][k] == grown[..ptr][k];
    }
  }

  lemma ZerosAreZero(mem: seq<byte>, at: nat, n: nat)
    requires at + 8 * n <= |mem| && mem[at..at + 8 * n] == Zeros(8 * n)
    ensures ReadArray(mem, at, n) == seq(n, _ => 0)
  {
    forall i | 0 <= i < n
      ensures Get64(mem, at + 8 * i) == 0
    {
      SliceOfSlice(mem, at, n, i);
      assert mem[at + 8 * i..at + 8 * i + 8] == Zeros(8);
      ZeroWord();
    }
  }

  lemma ZeroWord()
    ensures FromBytes(Zeros(8)) == 0 && ToInt64(0) == 0
  {
    ZeroBytes(8);
  }

  lemma {:induction false} ZeroBytes(n: nat)
    ensures FromBytes(Zeros(n)) == 0
  {
    if n > 0 {
      assert Zeros(n)[1..] == Zeros(n - 1);
      ZeroBytes(n - 1);
    }
  }

  lemma NewRefines(data: seq<byte>, w: World, objs: seq<Obj>, count: nat, limit: nat)
    requires Represents(data, w.heap, w.handles, objs) && w.heap.ptr + 8 * count + 7 < TWO_31
    requires ArrayNew(w.heap, count, limit).Some?
    ensures var c := ArrayNew(w.heap, count, limit).value;
            Represents(data, c.heap, w.handles + [c.handle], objs + [Arr(seq(count, _ => 0))])
  {
    var h, n := w.heap, 8 * count;
    var g := Bump(h, n, limit).value;
    var c := ArrayNew(h, count, limit).value;
    BumpKeeps(h, n, limit);
    PackedStart(h.ptr, count);
    assert c.heap.mem[h.ptr..h.ptr + n] == Zeros(n);
    ZerosAreZero(c.heap.mem, h.ptr, count);
    assert c.heap.mem[..h.ptr] == g.mem[..h.ptr];
    AboveIsSameBelow(h.mem, g.mem, c.heap.mem, h.ptr);
    AllocationRepresents(data, h, w.handles, objs, c.heap.mem, c.handle, Arr(seq(count, _ => 0)));
  }

  lemma WriteValuesRefines(data: seq<byte>, w: World, objs: seq<Obj>, vs: seq<i64>, limit: nat)
    requires Represents(data, w.heap, w.handles, objs) && w.heap.ptr + 8 * |vs| + 7 < TWO_31
    requires WriteValues(w.heap, vs, limit).Some?
    ensures var c := WriteValues(w.heap, vs, limit).value;
            Represents(data, c.heap, w.handles + [c.handle], objs + [Arr(vs)])
  {
    var h, n := w.heap, 8 * |vs|;
    var g := Bump(h, n, limit).value;
    var c := WriteValues(h, vs, limit).value;
    BumpKeeps(h, n, limit);
    PackedStart(h.ptr, |vs|);
    assert c.heap.mem == WriteArray(g.mem, h.ptr, vs);
    ReadOfWrite(g.mem, h.ptr, vs);
    WriteElsewhere(g.mem, h.ptr, vs, 0, h.ptr);
    AboveIsSameBelow(h.mem, g.mem, c.heap.mem, h.ptr);
    AllocationRepresents(data, h, w.handles, objs, c.heap.mem, c.handle, Arr(vs));
  }

  lemma ReadValuesIsExact(mem: seq<byte>, h: Heap, handle: int, o: Obj)
    requires h.mem == mem && Holds(mem, handle, o) && o.Arr?
    ensures ReadValues(h, handle) == Some(o.values)
  {
  }

  /** A push copies: the array it was given keeps its block and its values. */
  lemma PushRefines(data: seq<byte>, w: World, objs: seq<Obj>, i: nat, v: i64, limit: nat)
    requires Represents(data, w.heap, w.handles, objs) && i < |objs| && objs[i].Arr?
    requires w.heap.ptr + 8 * (|objs[i].values| + 1) + 7 < TWO_31
    requires ArrayPush(w.heap, w.handles[i], v, limit).Some?
    ensures var c := ArrayPush(w.heap, w.handles[i], v, limit).value;
            Represents(data, c.heap, w.handles + [c.handle], objs + [Arr(objs[i].values + [v])])
  {
    ReadValuesIsExact(w.heap.mem, w.heap, w.handles[i], objs[i]);
    WriteValuesRefines(data, w, objs, objs[i].values + [v], limit);
  }

  /** The block of an object the call does not touch, while another is written. */
  lemma SetKeepsOther(mem: seq<byte>, mem': seq<byte>, at: nat, v: i64, handle: int, o: Obj)
    requires at + 8 <= |mem| && mem' == Put64(mem, at, v) && Holds(mem, handle, o)
    requires at + 8 <= Start(handle) || Start(handle) + o.Size() <= at
    ensures Holds(mem', handle, o)
  {
    PutElsewhere(mem, at, v, Start(handle), Start(handle) + o.Size());
    HoldsFrame(mem, mem', handle, o);
  }

  lemma SetHolds(mem: seq<byte>, handle: int, o: Obj, k: nat, v: i64)
    requires Holds(mem, handle, o) && o.Arr? && k < |o.values|
    ensures var at := Start(handle) + 8 * k;
            at + 8 <= |mem| && Holds(Put64(mem, at, v), handle, Arr(o.values[k := v]))
  {
    ReadOfPut(mem, Start(handle), |o.values|, k, v);
  }

  lemma SetRefines(data: seq<byte>, w: World, objs: seq<Obj>, i: nat, k: nat, v: i64)
    requires Represents(data, w.heap, w.handles, objs) && i < |objs| && objs[i].Arr? && k < |objs[i].values|
    ensures ArraySet(w.heap, w.handles[i], k, v).Some?
    ensures Represents(data, ArraySet(w.heap, w.handles[i], k, v).value, w.handles,
                       objs[i := Arr(objs[i].values[k := v])])
  {
    var mem, at := w.heap.mem, Start(w.handles[i]) + 8 * k;
    SetHolds(mem, w.handles[i], objs[i], k, v);
    var mem' := Put64(mem, at, v);
    assert ArraySet(w.heap, w.handles[i], k, v) == Some(w.heap.(mem := mem'));
    var objs' := objs[i := Arr(objs[i].values[k := v])];
    forall j | 0 <= j < |objs|
      ensures Holds(mem', w.handles[j], objs'[j]) && objs'[j].Size() == objs[j].Size()
    {
      if j != i {
        assert j < i ==> Start(w.handles[j]) + objs[j].Size() <= Start(w.handles[i]);
        assert i < j ==> Start(w.handles[i]) + objs[i].Size() <= Start(w.handles[j]);
        SetKeepsOther(mem, mem', at, v, w.handles[j], objs[j]);
      }
    }
    assert data <= mem' by {
      PutElsewhere(mem, at, v, 0, |data|);
      assert mem'[..|data|] == mem[..|data|];
    }
    hide Holds, Put64, ArraySet, Start;
  }

  /** A source lies below the pointer, where nothing has changed. */
  lemma SourceIsKept(data: seq<byte>, h: Heap, handles: seq<int>, objs: seq<Obj>, s: Source, mem': seq<byte>)
    requires Represents(data, h, handles, objs) && SourceOk(data, objs, s) && SameBelow(h.mem, mem', h.ptr)
    ensures var at, len := Address(handles, s), SourceLength(handles, s);
            && len == |TextOf(data, objs, s)| && at + len <= h.ptr && at + len <= |h.mem|
            && mem'[at..at + len] == TextOf(data, objs, s)
  {
    var at, len := Address(handles, s), SourceLength(handles, s);
    match s
    case Object(i) => SameBelowSlice(h.mem, mem', h.ptr, at, at + len);
    case Data(_, _) =>
      SameBelowSlice(h.mem, mem', h.ptr, at, at + len);
      assert h.mem[at..at + len] == data[at..at + len];
  }

  lemma BlitKeepsBelow(mem: seq<byte>, grown: seq<byte>, at: nat, bytes: seq<byte>, ptr: nat)
    requires SameBelow(mem, grown, ptr) && ptr <= at && at + |bytes| <= |grown|
    ensures SameBelow(mem, Blit(grown, at, bytes), ptr)
    ensures Blit(grown, at, bytes)[at..at + |bytes|] == bytes
    ensures Blit(grown, at, bytes)[..at] == grown[..at]
  {
  }

  lemma TwoBlits(grown: seq<byte>, at: nat, a: seq<byte>, b: seq<byte>)
    requires at + |a| + |b| <= |grown|
    ensures Blit(Blit(grown, at, a), at + |a|, b)[at..at + |a| + |b|] == a + b
  {
  }

  /** Memory after a concatenation: the two texts, one behind the other, from the pointer on. */
  function Joined(h: Heap, s: seq<byte>, t: seq<byte>, limit: nat): seq<byte>
    requires Bump(h, |s| + |t|, limit).Some? && h.ptr >= 0 && h.ptr + |s| + |t| <= |Bump(h, |s| + |t|, limit).value.mem|
  {
    Blit(Blit(Bump(h, |s| + |t|, limit).value.mem, h.ptr, s), h.ptr + |s|, t)
  }

  lemma StringConcatJoins(h: Heap, off1: nat, off2: nat, s: seq<byte>, t: seq<byte>, limit: nat)
    requires Bump(h, |s| + |t|, limit).Some? && h.ptr >= 0
    requires var mem := Bump(h, |s| + |t|, limit).value.mem;
             && h.ptr + |s| + |t| <= |mem| && off1 + |s| <= |mem| && off2 + |t| <= |mem|
             && mem[off1..off1 + |s|] == s && Blit(mem, h.ptr, s)[off2..off2 + |t|] == t
    ensures StringConcat(h, off1, |s|, off2, |t|, limit)
         == Some(Called(Heap(Joined(h, s, t, limit), Align(h.ptr + (|s| + |t|))), Pack(h.ptr, |s| + |t|)))
  {
    hide Blit, Pack, Align, Grown;
  }

  predicate Concatenates(w: World, s: seq<byte>, t: seq<byte>, limit: nat, w': World) {
    var h := w.heap;
    && Bump(h, |s| + |t|, limit).Some? && h.ptr >= 0 && h.ptr + |s| + |t| <= |Bump(h, |s| + |t|, limit).value.mem|
    && w' == World(Heap(Joined(h, s, t, limit), Align(h.ptr + (|s| + |t|))), w.handles + [Pack(h.ptr, |s| + |t|)])
    && SameBelow(h.mem, Joined(h, s, t, limit), h.ptr)
  }

  lemma SourceLengths(data: seq<byte>, w: World, objs: seq<Obj>, a: Source, b: Source, limit: nat)
    requires Represents(data, w.heap, w.handles, objs) && SourceOk(data, objs, a) && SourceOk(data, objs, b)
    requires Step(w, Concat(a, b), limit).Some?
    ensures SourceLength(w.handles, a) == |TextOf(data, objs, a)|
            && SourceLength(w.handles, b) == |TextOf(data, objs, b)|
    ensures Bump(w.heap, |TextOf(data, objs, a)| + |TextOf(data, objs, b)|, limit).Some?
  {
    SourceIsKept(data, w.heap, w.handles, objs, a, w.heap.mem);
    SourceIsKept(data, w.heap, w.handles, objs, b, w.heap.mem);
    hide Represents, TextOf, Address, SourceOk, Bump, Blit, Pack;
  }

  /** The copy goes behind everything live, so both sources are read as they were. */
  lemma SourcesAreRead(data: seq<byte>, w: World, objs: seq<Obj>, a: Source, b: Source, grown: seq<byte>)
    requires Represents(data, w.heap, w.handles, objs) && SourceOk(data, objs, a) && SourceOk(data, objs, b)
    requires SameBelow(w.heap.mem, grown, w.heap.ptr)
    requires w.heap.ptr + |TextOf(data, objs, a)| + |TextOf(data, objs, b)| <= |grown|
    ensures w.heap.ptr >= 0
    ensures var at, s := Address(w.handles, a), TextOf(data, objs, a);
            at + |s| <= |grown| && grown[at..at + |s|] == s
    ensures var s, at, t := TextOf(data, objs, a), Address(w.handles, b), TextOf(data, objs, b);
            at + |t| <= |grown| && Blit(grown, w.heap.ptr, s)[at..at + |t|] == t
    ensures var s, t := TextOf(data, objs, a), TextOf(data, objs, b);
            SameBelow(w.heap.mem, Blit(Blit(grown, w.heap.ptr, s), w.heap.ptr + |s|, t), w.heap.ptr)
  {
    var h, s, t := w.heap, TextOf(data, objs, a), TextOf(data, objs, b);
    assert h.ptr >= 0 && |h.mem| <= |grown|;
    hide *;
    SourceIsKept(data, h, w.handles, objs, a, grown);
    var once := Blit(grown, h.ptr, s);
    BlitKeepsBelow(h.mem, grown, h.ptr, s, h.ptr);
    SourceIsKept(data, h, w.handles, objs, b, once);
    BlitKeepsBelow(h.mem, once, h.ptr + |s|, t, h.ptr);
  }

  lemma PrefixIsSameBelow(mem: seq<byte>, grown: seq<byte>, n: int)
    requires mem <= grown
    ensures SameBelow(mem, grown, n)
  {
  }

  lemma ConcatJoins(data: seq<byte>, w: World, objs: seq<Obj>, a: Source, b: Source, limit: nat)
    requires Represents(data, w.heap, w.handles, objs) && SourceOk(data, objs, a) && SourceOk(data, objs, b)
    requires Step(w, Concat(a, b), limit).Some?
    ensures Concatenates(w, TextOf(data, objs, a), TextOf(data, objs, b), limit, Step(w, Concat(a, b), limit).value)
  {
    var h, s, t := w.heap, TextOf(data, objs, a), TextOf(data, objs, b);
    SourceLengths(data, w, objs, a, b, limit);
    assert h.ptr >= 0;
    hide Represents, Blit, Pack, Bump, TextOf, Align, SourceOk, Holds, Address, SourceLength, StringConcat, SameBelow;
    BumpKeeps(h, |s| + |t|, limit);
    PrefixIsSameBelow(h.mem, Bump(h, |s| + |t|, limit).value.mem, h.ptr);
    SourcesAreRead(data, w, objs, a, b, Bump(h, |s| + |t|, limit).value.mem);
    StringConcatJoins(h, Address(w.handles, a), Address(w.handles, b), s, t, limit);
  }

  lemma JoinedHolds(h: Heap, s: seq<byte>, t: seq<byte>, limit: nat)
    requires Bump(h, |s| + |t|, limit).Some? && HEAP_START <= h.ptr && h.ptr % 8 == 0 && h.ptr + |s| + |t| < TWO_31
    requires h.ptr + |s| + |t| <= |Bump(h, |s| + |t|, limit).value.mem|
    ensures var handle := Pack(h.ptr, |s| + |t|);
            Start(handle) == h.ptr && Holds(Joined(h, s, t, limit), handle, Str(s + t))
  {
    hide Bump, Pack;
    TwoBlits(Bump(h, |s| + |t|, limit).value.mem, h.ptr, s, t);
    PackedStart(h.ptr, |s| + |t|);
    assert Holds(Joined(h, s, t, limit), Pack(h.ptr, |s| + |t|), Str(s + t)) by {
      hide Blit;
    }
  }

  lemma JoinedRepresents(data: seq<byte>, w: World, objs: seq<Obj>, s: seq<byte>, t: seq<byte>, limit: nat, w': World)
    requires Represents(data, w.heap, w.handles, objs) && w.heap.ptr + |s| + |t| + 7 < TWO_31
    requires Concatenates(w, s, t, limit, w')
    ensures Represents(data, w'.heap, w'.handles, objs + [Str(s + t)])
  {
    var h := w.heap;
    assert HEAP_START <= h.ptr && h.ptr % 8 == 0;
    hide Represents, Joined, Holds, Pack, Bump, SameBelow, Align;
    JoinedHolds(h, s, t, limit);
    AllocationRepresents(data, h, w.handles, objs, Joined(h, s, t, limit), Pack(h.ptr, |s| + |t|), Str(s + t));
  }

  lemma ConcatRefines(data: seq<byte>, w: World, objs: seq<Obj>, a: Source, b: Source, limit: nat)
    requires Represents(data, w.heap, w.handles, objs) && SourceOk(data, objs, a) && SourceOk(data, objs, b)
    requires w.heap.ptr + |TextOf(data, objs, a)| + |TextOf(data, objs, b)| + 7 < TWO_31
    requires Step(w, Concat(a, b), limit).Some?
    ensures var w' := Step(w, Concat(a, b), limit).value;
            Represents(data, w'.heap, w'.handles, objs + [Str(TextOf(data, objs, a) + TextOf(data, objs, b))])
  {
    hide Step, Concatenates, TextOf, Holds;
    ConcatJoins(data, w, objs, a, b, limit);
    JoinedRepresents(data, w, objs, TextOf(data, objs, a), TextOf(data, objs, b), limit,
                     Step(w, Concat(a, b), limit).value);
  }

  /** Every host call that fits does to the store what `Apply` says. */
  lemma StepRefines(data: seq<byte>, w: World, objs: seq<Obj>, op: Op, limit: nat)
    requires Represents(data, w.heap, w.handles, objs) && Allowed(data, objs, op) && Fits(data, w.heap, objs, op)
    requires Step(w, op, limit).Some?
    ensures var w' := Step(w, op, limit).value; Represents(data, w'.heap, w'.handles, Apply(data, objs, op))
  {
    match op
    case New(count) => NewRefines(data, w, objs, count, limit);
    case Set(i, k, v) => SetRefines(data, w, objs, i, k, v);
    case PushOn(i, v) => PushRefines(data, w, objs, i, v, limit);
    case Concat(a, b) => ConcatRefines(data, w, objs, a, b, limit);
  }

  // ----- whole runs -----

  /** The calls are allowed, fit and do not throw, one after another. */
  predicate Runs(data: seq<byte>, w: World, objs: seq<Obj>, ops: seq<Op>, limit: nat)
    requires |w.handles| == |objs|
    decreases |ops|
  {
    ops != [] ==>
    && Allowed(data, objs, ops[0]) && Fits(data, w.heap, objs, ops[0])
    && Step(w, ops[0], limit).Some?
    && Runs(data, Step(w, ops[0], limit).value, Apply(data, objs, ops[0]), ops[1..], limit)
  }

  function After(data: seq<byte>, w: World, objs: seq<Obj>, ops: seq<Op>, limit: nat): (World, seq<Obj>)
    requires |w.handles| == |objs| && Runs(data, w, objs, ops, limit)
    decreases |ops|
  {
    if ops == [] then (w, objs)
    else After(data, Step(w, ops[0], limit).value, Apply(data, objs, ops[0]), ops[1..], limit)
  }

  lemma {:induction false} RunRefines(data: seq<byte>, w: World, objs: seq<Obj>, ops: seq<Op>, limit: nat)
    requires Represents(data, w.heap, w.handles, objs) && Runs(data, w, objs, ops, limit)
    ensures var (w', objs') := After(data, w, objs, ops, limit); Represents(data, w'.heap, w'.handles, objs')
    decreases |ops|
  {
    hide Represents, Fits;
    if ops != [] {
      StepRefines(data, w, objs, ops[0], limit);
      RunRefines(data, Step(w, ops[0], limit).value, Apply(data, objs, ops[0]), ops[1..], limit);
    }
  }

  lemma InitialRepresents(mem: seq<byte>)
    ensures var data := mem[..if |mem| < HEAP_START then |mem| else HEAP_START];
            Represents(data, Heap(mem, HEAP_START), [], [])
  {
  }

  /** The bytes a string handle names. */
  function TextAt(mem: seq<byte>, handle: int): Option<seq<byte>> {
    var (off, len) := Unpack(handle);
    if off + len <= |mem| then Some(mem[off..off + len]) else None
  }

  /** After any such run, through the handles as the program holds them: arrays and strings
      read back as the store has them, blocks are aligned, apart, inside memory, and above the
      data the module started with. */
  lemma RunsReadBack(mem: seq<byte>, ops: seq<Op>, limit: nat)
    requires var data := mem[..if |mem| < HEAP_START then |mem| else HEAP_START];
             Runs(data, World(Heap(mem, HEAP_START), []), [], ops, limit)
    ensures var data := mem[..if |mem| < HEAP_START then |mem| else HEAP_START];
            var (w, objs) := After(data, World(Heap(mem, HEAP_START), []), [], ops, limit);
            && |w.handles| == |objs| && data <= w.heap.mem
            && (forall i | 0 <= i < |objs| ::
                  && HEAP_START <= Start(w.handles[i]) && Start(w.handles[i]) % 8 == 0
                  && Start(w.handles[i]) + objs[i].Size() <= |w.heap.mem|
                  && (objs[i].Arr? ==> ReadValues(w.heap, w.handles[i]) == Some(objs[i].values))
                  && (objs[i].Str? ==> TextAt(w.heap.mem, w.handles[i]) == Some(objs[i].text)))
            && (forall i, j | 0 <= i < j < |objs| :: Start(w.handles[i]) + objs[i].Size() <= Start(w.handles[j]))
  {
    var data := mem[..if |mem| < HEAP_START then |mem| else HEAP_START];
    var w0 := World(Heap(mem, HEAP_START), []);
    InitialRepresents(mem);
    RunRefines(data, w0, [], ops, limit);
    hide Runs, After, ReadArray, Unpack;
    var (w, objs) := After(data, w0, [], ops, limit);
    forall i | 0 <= i < |objs| && objs[i].Arr?
      ensures ReadValues(w.heap, w.handles[i]) == Some(objs[i].values)
    {
      ReadValuesIsExact(w.heap.mem, w.heap, w.handles[i], objs[i]);
    }
  }

  /** An object a run does not set is the same at its end, under the same handle; what is
      pushed or concatenated later leaves it intact. */
  lemma {:induction false} OnlySetsChange(data: seq<byte>, w: World, objs: seq<Obj>, ops: seq<Op>, limit: nat, i: nat)
    requires |w.handles| == |objs| && Runs(data, w, objs, ops, limit) && i < |objs|
    requires forall k | 0 <= k < |ops| :: !(ops[k].Set? && ops[k].i == i)
    ensures var (w', objs') := After(data, w, objs, ops, limit);
            |objs| <= |objs'| == |w'.handles| && objs'[i] == objs[i] && w'.handles[i] == w.handles[i]
    decreases |ops|
  {
    if ops != [] {
      var w1 := Step(w, ops[0], limit).value;
      var objs1 := Apply(data, objs, ops[0]);
      assert objs1[i] == objs[i] && w1.handles[i] == w.handles[i];
      OnlySetsChange(data, w1, objs1, ops[1..], limit, i);
    }
  }

  // ----- data above the heap's start -----

  predicate SameFrom(mem: seq<byte>, mem': seq<byte>, n: int) {
    |mem| <= |mem'| && forall k | 0 <= k < |mem| && n <= k :: mem'[k] == mem[k]
  }

  lemma NewKeepsAbove(h: Heap, count: nat, limit: nat)
    requires HEAP_START <= h.ptr && h.ptr + 8 * count + 7 < TWO_31 && ArrayNew(h, count, limit).Some?
    ensures var h' := ArrayNew(h, count, limit).value.heap; h.ptr <= h'.ptr && SameFrom(h.mem, h'.mem, h'.ptr)
  {
    BumpKeeps(h, 8 * count, limit);
    AlignExactly(h.ptr + 8 * count);
  }

  lemma WriteKeepsAbove(h: Heap, vs: seq<int>, limit: nat)
    requires HEAP_START <= h.ptr && h.ptr + 8 * |vs| + 7 < TWO_31 && WriteValues(h, vs, limit).Some?
    ensures var h' := WriteValues(h, vs, limit).value.heap; h.ptr <= h'.ptr && SameFrom(h.mem, h'.mem, h'.ptr)
  {
    var n := h.ptr + 8 * |vs|;
    var g := Bump(h, 8 * |vs|, limit).value;
    var mem' := WriteValues(h, vs, limit).value.heap.mem;
    BumpKeeps(h, 8 * |vs|, limit);
    AlignExactly(n);
    assert mem' == WriteArray(g.mem, h.ptr, vs);
    WriteElsewhere(g.mem, h.ptr, vs, n, |g.mem|);
    forall k | n <= k < |h.mem|
      ensures mem'[k] == h.mem[k]
    {
      assert mem'[n..|g.mem|][k - n] == g.mem[n..|g.mem|][k - n];
    }
  }

  lemma SetKeepsAbove(data: seq<byte>, w: World, objs: seq<Obj>, i: nat, k: nat, v: i64)
    requires Represents(data, w.heap, w.handles, objs) && i < |objs| && objs[i].Arr? && k < |objs[i].values|
    ensures ArraySet(w.heap, w.handles[i], k, v).Some?
    ensures var h' := ArraySet(w.heap, w.handles[i], k, v).value;
            h'.ptr == w.heap.ptr && SameFrom(w.heap.mem, h'.mem, h'.ptr)
  {
    var mem, at := w.heap.mem, Start(w.handles[i]) + 8 * k;
    SetHolds(mem, w.handles[i], objs[i], k, v);
    assert at + 8 <= w.heap.ptr;
  }

  lemma ConcatKeepsAbove(w: World, s: seq<byte>, t: seq<byte>, limit: nat, w': World)
    requires HEAP_START <= w.heap.ptr && w.heap.ptr + |s| + |t| + 7 < TWO_31
    requires Concatenates(w, s, t, limit, w')
    ensures w.heap.ptr <= w'.heap.ptr && SameFrom(w.heap.mem, w'.heap.mem, w'.heap.ptr)
  {
    hide Bump, Align, Pack;
    BumpKeeps(w.heap, |s| + |t|, limit);
    AlignExactly(w.heap.ptr + (|s| + |t|));
  }

  /** A call writes nothing from its final pointer on. */
  lemma StepKeepsAbove(data: seq<byte>, w: World, objs: seq<Obj>, op: Op, limit: nat)
    requires Represents(data, w.heap, w.handles, objs) && Allowed(data, objs, op) && Fits(data, w.heap, objs, op)
    requires Step(w, op, limit).Some?
    ensures var h' := Step(w, op, limit).value.heap; w.heap.ptr <= h'.ptr && SameFrom(w.heap.mem, h'.mem, h'.ptr)
  {
    match op
    case New(count) => NewKeepsAbove(w.heap, count, limit);
    case Set(i, k, v) => SetKeepsAbove(data, w, objs, i, k, v);
    case PushOn(i, v) =>
      ReadValuesIsExact(w.heap.mem, w.heap, w.handles[i], objs[i]);
      WriteKeepsAbove(w.heap, objs[i].values + [v], limit);
    case Concat(a, b) =>
      ConcatJoins(data, w, objs, a, b, limit);
      hide Concatenates, Step;
      ConcatKeepsAbove(w, TextOf(data, objs, a), TextOf(data, objs, b), limit, Step(w, op, limit).value);
  }

  /** The module's data above the heap's start survives a run from the run's final pointer on. */
  lemma {:induction false} RunKeepsAbove(data: seq<byte>, w: World, objs: seq<Obj>, ops: seq<Op>, limit: nat)
    requires Represents(data, w.heap, w.handles, objs) && Runs(data, w, objs, ops, limit)
    ensures var h' := After(data, w, objs, ops, limit).0.heap;
            w.heap.ptr <= h'.ptr && SameFrom(w.heap.mem, h'.mem, h'.ptr)
    decreases |ops|
  {
    hide Represents, Fits;
    if ops != [] {
      StepRefines(data, w, objs, ops[0], limit);
      StepKeepsAbove(data, w, objs, ops[0], limit);
      RunKeepsAbove(data, Step(w, ops[0], limit).value, Apply(data, objs, ops[0]), ops[1..], limit);
    }
  }

  /** The memory a new block covers holds these bytes, as far as there was memory. */
  predicate HeldAlready(h: Heap, bytes: seq<byte>) {
    forall k | 0 <= k < |bytes| && 0 <= h.ptr + k < |h.mem| :: h.mem[h.ptr + k] == bytes[k]
  }

  lemma BlitAt(mem: seq<byte>, at: nat, bytes: seq<byte>, k: nat)
    requires at + |bytes| <= |mem| && k < |mem|
    ensures Blit(mem, at, bytes)[k] == if at <= k < at + |bytes| then bytes[k - at] else mem[k]
  {
  }

  /** Below the final pointer nothing is safe: what a new block covers stays what it was exactly
      if it already was what the call writes. */
  lemma BlitKeepsExactly(h: Heap, grown: seq<byte>, bytes: seq<byte>)
    requires 0 <= h.ptr && h.mem <= grown && h.ptr + |bytes| <= |grown|
    ensures h.mem <= Blit(grown, h.ptr, bytes) <==> HeldAlready(h, bytes)
  {
    hide Blit;
    var mem' := Blit(grown, h.ptr, bytes);
    if HeldAlready(h, bytes) {
      forall k | 0 <= k < |h.mem|
        ensures mem'[k] == h.mem[k]
      {
        BlitAt(grown, h.ptr, bytes, k);
        if h.ptr <= k < h.ptr + |bytes| {
          assert h.mem[h.ptr + (k - h.ptr)] == bytes[k - h.ptr];
        }
      }
    } else {
      var k :| 0 <= k < |bytes| && 0 <= h.ptr + k < |h.mem| && h.mem[h.ptr + k] != bytes[k];
      BlitAt(grown, h.ptr, bytes, h.ptr + k);
    }
  }

  /** `array_new` writes zeros. */
  lemma NewKeepsExactly(h: Heap, count: nat, limit: nat)
    requires 0 <= h.ptr && ArrayNew(h, count, limit).Some?
    ensures h.mem <= ArrayNew(h, count, limit).value.heap.mem <==> HeldAlready(h, Zeros(8 * count))
  {
    BumpKeeps(h, 8 * count, limit);
    BlitKeepsExactly(h, Bump(h, 8 * count, limit).value.mem, Zeros(8 * count));
  }

  /** The cells of an array, eight bytes each. */
  function Encoded(vs: seq<int>): (r: seq<byte>)
    ensures |r| == 8 * |vs|
  {
    if vs == [] then [] else Encoded(vs[..|vs| - 1]) + Bytes(vs[|vs| - 1] % TWO_64, 8)
  }

  lemma {:induction false} WriteIsBlit(mem: seq<byte>, at: nat, vs: seq<int>)
    requires at + 8 * |vs| <= |mem|
    ensures WriteArray(mem, at, vs) == Blit(mem, at, Encoded(vs))
    decreases |vs|
  {
    hide Bytes;
    if vs == [] {
      assert Blit(mem, at, []) == mem;
    } else {
      WriteIsBlit(mem, at, vs[..|vs| - 1]);
      BlitGrows(mem, at, Encoded(vs[..|vs| - 1]), vs[|vs| - 1]);
    }
  }

  lemma BlitGrows(mem: seq<byte>, at: nat, bytes: seq<byte>, v: int)
    requires at + |bytes| + 8 <= |mem|
    ensures Put64(Blit(mem, at, bytes), at + |bytes|, v) == Blit(mem, at, bytes + Bytes(v % TWO_64, 8))
  {
    hide Bytes;
    var cell := Bytes(v % TWO_64, 8);
    var once, whole := Blit(mem, at, bytes), Blit(mem, at, bytes + cell);
    assert once[..at + |bytes|] == mem[..at] + bytes;
    assert once[at + |bytes| + 8..] == mem[at + |bytes| + 8..];
  }

  /** `array_push` writes the old cells and the new one. */
  lemma PushKeepsExactly(h: Heap, handle: int, v: int, limit: nat)
    requires 0 <= h.ptr && ArrayPush(h, handle, v, limit).Some?
    ensures ReadValues(h, handle).Some?
    ensures h.mem <= ArrayPush(h, handle, v, limit).value.heap.mem
            <==> HeldAlready(h, Encoded(ReadValues(h, handle).value + [v]))
  {
    hide Bump, ReadValues, Encoded, WriteArray, Pack, Blit, HeldAlready;
    var vs := ReadValues(h, handle).value + [v];
    BumpKeeps(h, 8 * |vs|, limit);
    var g := Bump(h, 8 * |vs|, limit).value;
    WriteIsBlit(g.mem, h.ptr, vs);
    BlitKeepsExactly(h, g.mem, Encoded(vs));
  }

  lemma BlitTwice(mem: seq<byte>, at: nat, a: seq<byte>, b: seq<byte>)
    requires at + |a| + |b| <= |mem|
    ensures Blit(Blit(mem, at, a), at + |a|, b) == Blit(mem, at, a + b)
  {
  }

  /** `string_concat` writes the first source as the grown memory holds it, and the second as it
      is once the first has been copied. */
  lemma ConcatKeepsExactly(h: Heap, off1: nat, len1: nat, off2: nat, len2: nat, limit: nat)
    requires 0 <= h.ptr && StringConcat(h, off1, len1, off2, len2, limit).Some?
    ensures var g := Bump(h, len1 + len2, limit).value.mem;
            var s := g[off1..off1 + len1];
            var t := Blit(g, h.ptr, s)[off2..off2 + len2];
            h.mem <= StringConcat(h, off1, len1, off2, len2, limit).value.heap.mem <==> HeldAlready(h, s + t)
  {
    BumpKeeps(h, len1 + len2, limit);
    hide Bump, Blit, Pack, HeldAlready;
    var g := Bump(h, len1 + len2, limit).value.mem;
    var s := g[off1..off1 + len1];
    var t := Blit(g, h.ptr, s)[off2..off2 + len2];
    BlitTwice(g, h.ptr, s, t);
    BlitKeepsExactly(h, g, s + t);
  }
}
