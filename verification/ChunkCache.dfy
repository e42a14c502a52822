/** Message data that is fetched from the application in chunks. Whatever order the bytes are
    asked for in, each is the byte of the source; asked for in order, the chunks tile it. */
module ChunkCache {
  import opened Widths

  /** A call of the chunk callback. */
  datatype Fetch = Fetch(offset: nat, length: nat)

  /** What the buffer holds once `initialized`: the source from `offset` on. */
  datatype Window = Window(initialized: bool, offset: nat)

  function FetchAt(size: nat, chunk: nat, index: nat): Fetch
    requires index < size
  {
    Fetch(index, Min(size - index, chunk))
  }

  predicate Covers(w: Window, chunk: nat, index: nat) {
    w.initialized && w.offset <= index < w.offset + chunk
  }

  /** The fetches of one `get_byte`, and the window after it. */
  function Fetches(w: Window, size: nat, chunk: nat, index: nat): seq<Fetch> {
    if index >= size || Covers(w, chunk, index) then [] else [FetchAt(size, chunk, index)]
  }

  function After(w: Window, size: nat, chunk: nat, index: nat): Window {
    if index >= size || Covers(w, chunk, index) then w else Window(true, index)
  }

  /** The fetches of a sequence of accesses, in order. */
  function Log(size: nat, chunk: nat, accesses: seq<nat>): seq<Fetch>
    decreases |accesses|
  {
    if accesses == [] then []
    else
      var init := accesses[..|accesses| - 1];
      Log(size, chunk, init) + Fetches(WindowAfter(size, chunk, init), size, chunk, accesses[|accesses| - 1])
  }

  function WindowAfter(size: nat, chunk: nat, accesses: seq<nat>): Window
    decreases |accesses|
  {
    if accesses == [] then Window(false, 0)
    else After(WindowAfter(size, chunk, accesses[..|accesses| - 1]), size, chunk, accesses[|accesses| - 1])
  }

  function Upto(n: nat): seq<nat> { seq(n, i => i) }

  function Ceiling(n: nat, d: nat): nat
    requires d > 0
  {
    (n + d - 1) / d
  }

  /** The first `n` chunks of the source. */
  function Tiles(size: nat, chunk: nat, n: nat): seq<Fetch>
    requires n > 0 ==> (n - 1) * chunk < size
  {
    seq(n, i requires 0 <= i < n =>
      TileStarts(size, chunk, n, i);
      FetchAt(size, chunk, i * chunk))
  }

  lemma TileStarts(size: nat, chunk: nat, n: nat, i: nat)
    requires i < n && (n - 1) * chunk < size
    ensures i * chunk < size
  {
    assert i * chunk <= (n - 1) * chunk;
  }

  lemma CeilingFacts(n: nat, d: nat)
    requires d > 0
    ensures n > 0 ==> (Ceiling(n, d) - 1) * d < n <= Ceiling(n, d) * d
    ensures n == 0 ==> Ceiling(n, d) == 0
    ensures Ceiling(n + 1, d) == if n % d == 0 then Ceiling(n, d) + 1 else Ceiling(n, d)
    ensures n % d == 0 ==> Ceiling(n, d) * d == n
  {
    var q, r := n / d, n % d;
    assert n == q * d + r;
    Quotient(n, d, q, r);
  }

  lemma Quotient(n: nat, d: nat, q: nat, r: nat)
    requires d > 0 && n == q * d + r && r < d
    ensures Ceiling(n, d) == (if r == 0 then q else q + 1) && Ceiling(n + 1, d) == q + 1
  {
    DivideUnique(n + d - 1, d, if r == 0 then q else q + 1, if r == 0 then d - 1 else r - 1);
    DivideUnique(n + d, d, q + 1, r);
  }

  lemma Multiple(a: int, d: int)
    requires d >= 0
    ensures a >= 1 ==> a * d >= d
    ensures a <= -1 ==> a * d <= -d
  {
    if a >= 1 {
      assert a * d == (a - 1) * d + d;
    } else if a <= -1 {
      assert a * d == (a + 1) * d - d;
    }
  }

  lemma DivideUnique(x: nat, d: nat, q: nat, r: nat)
    requires d > 0 && x == q * d + r && r < d
    ensures x / d == q
  {
    var p, s := x / d, x % d;
    assert x == p * d + s;
    assert p * d - q * d == (p - q) * d;
    Multiple(p - q, d);
  }

  lemma TilesGrow(size: nat, chunk: nat, c: nat)
    requires c * chunk < size
    ensures c > 0 ==> (c - 1) * chunk < size
    ensures Tiles(size, chunk, c + 1) == Tiles(size, chunk, c) + [FetchAt(size, chunk, c * chunk)]
  {
    Multiple(1, chunk);
    assert c > 0 ==> (c - 1) * chunk == c * chunk - chunk;
  }

  /** Whether byte `i` starts a chunk or lies in the one that was fetched last. */
  lemma NextByte(w: Window, size: nat, chunk: nat, i: nat, c: nat)
    requires chunk > 0 && i < size
    requires if i == 0 then c == 0 && w == Window(false, 0) else c > 0 && w == Window(true, (c - 1) * chunk)
    requires if i % chunk == 0 then i == c * chunk else (c - 1) * chunk < i < c * chunk
    ensures if i % chunk == 0
            then Fetches(w, size, chunk, i) == [FetchAt(size, chunk, i)] && After(w, size, chunk, i) == Window(true, c * chunk)
            else Fetches(w, size, chunk, i) == [] && After(w, size, chunk, i) == w
  {
    assert (c - 1) * chunk + chunk == c * chunk;
  }

  /** Reading the first `n` bytes in order fetches the first chunks that hold them, each once. */
  lemma {:induction false} SequentialPass(size: nat, chunk: nat, n: nat)
    requires chunk > 0 && n <= size
    ensures Ceiling(n, chunk) > 0 ==> (Ceiling(n, chunk) - 1) * chunk < size
    ensures Log(size, chunk, Upto(n)) == Tiles(size, chunk, Ceiling(n, chunk))
    ensures WindowAfter(size, chunk, Upto(n)) == if n > 0 then Window(true, (Ceiling(n, chunk) - 1) * chunk) else Window(false, 0)
  {
    hide Ceiling, Tiles, Fetches, After;
    CeilingFacts(n, chunk);
    TilesLength(size, chunk, 0);
    if n > 0 {
      SequentialPass(size, chunk, n - 1);
      CeilingFacts(n - 1, chunk);
      assert Upto(n)[..n - 1] == Upto(n - 1);
      var c := Ceiling(n - 1, chunk);
      NextByte(WindowAfter(size, chunk, Upto(n - 1)), size, chunk, n - 1, c);
      if (n - 1) % chunk == 0 {
        TilesGrow(size, chunk, c);
      }
    }
  }

  lemma TilesLength(size: nat, chunk: nat, n: nat)
    requires n > 0 ==> (n - 1) * chunk < size
    ensures |Tiles(size, chunk, n)| == n
  {
  }

  /** Each fetch begins where the one before it ends, and together they are the message. */
  predicate Tile(log: seq<Fetch>, size: nat) {
    && (forall k | 0 <= k < |log| - 1 :: log[k + 1].offset == log[k].offset + log[k].length)
    && (if log == [] then size == 0 else log[0].offset == 0 && log[|log| - 1].offset + log[|log| - 1].length == size)
  }

  lemma OneTile(size: nat, chunk: nat, n: nat, k: nat)
    requires k < n && (n - 1) * chunk < size <= n * chunk
    ensures var tile := Tiles(size, chunk, n)[k];
            tile.offset == k * chunk && 0 < tile.length <= chunk
            && tile.offset + tile.length == if k < n - 1 then (k + 1) * chunk else size
  {
    TileStarts(size, chunk, n, k);
    assert (k + 1) * chunk == k * chunk + chunk;
    if k < n - 1 {
      TileStarts(size, chunk, n, k + 1);
    }
  }

  /** One pass over the message calls the source once for each chunk, and the chunks tile it. */
  lemma {:induction false} WholePass(size: nat, chunk: nat)
    requires chunk > 0
    ensures var log := Log(size, chunk, Upto(size));
            |log| == Ceiling(size, chunk) && Tile(log, size) && forall k | 0 <= k < |log| :: 0 < log[k].length <= chunk
  {
    hide Ceiling, Tiles, FetchAt, Min;
    SequentialPass(size, chunk, size);
    CeilingFacts(size, chunk);
    var n := Ceiling(size, chunk);
    var log := Log(size, chunk, Upto(size));
    assert |log| == n by { TilesLength(size, chunk, n); }
    forall k | 0 <= k < n
      ensures log[k].offset == k * chunk && 0 < log[k].length <= chunk
      ensures log[k].offset + log[k].length == if k < n - 1 then (k + 1) * chunk else size
    {
      OneTile(size, chunk, n, k);
    }
  }

  /** `CANMessageDataCallback`; the source is what the application's callback hands out. */
  class CANMessageDataCallback {
    const source: seq<u8>
    const buffer: array<u8>
    var dataOffset: nat
    var initialized: bool
    ghost var accesses: seq<nat>
    ghost var log: seq<Fetch>

    ghost predicate Valid()
      reads this, buffer
    {
      && buffer.Length > 0
      && Window(initialized, dataOffset) == WindowAfter(|source|, buffer.Length, accesses)
      && (initialized ==> forall k | 0 <= k < buffer.Length && dataOffset + k < |source| :: buffer[k] == source[dataOffset + k])
      && log == Log(|source|, buffer.Length, accesses)
    }

    constructor (source: seq<u8>, chunkSize: nat)
      requires chunkSize > 0
      ensures Valid() && fresh(buffer) && this.source == source && buffer.Length == chunkSize && accesses == []
    {
      this.source := source;
      buffer := new u8[chunkSize];
      dataOffset, initialized, accesses, log := 0, false, [], [];
    }

    /** The application fills the front of the buffer. */
    method CallBack(offset: nat, length: nat)
      requires length <= buffer.Length && offset + length <= |source|
      modifies buffer, this`log
      ensures forall k | 0 <= k < length :: buffer[k] == source[offset + k]
      ensures log == old(log) + [Fetch(offset, length)]
    {
      for k := 0 to length
        invariant forall j | 0 <= j < k :: buffer[j] == source[offset + j]
        invariant log == old(log)
      {
        buffer[k] := source[offset + k];
      }
      log := log + [Fetch(offset, length)];
    }

    method GetByte(index: nat) returns (b: u8)
      requires Valid()
      modifies this, buffer
      ensures Valid()
      ensures b == if index < |source| then source[index] else 0
      ensures accesses == old(accesses) + [index]
    {
      accesses := accesses + [index];
      assert accesses[..|accesses| - 1] == old(accesses);
      if index >= |source| {
        return 0;
      }
      if index >= dataOffset + buffer.Length || index < dataOffset || !initialized {
        initialized := true;
        dataOffset := index;
        CallBack(dataOffset, Min(|source| - dataOffset, buffer.Length));
      }
      b := buffer[index - dataOffset];
    }
  }
}
