/**
 * ChunkedSymbolListFactory: builds a symbol list out of symbols handed over piecemeal,
 * buffering them in a head chunk of CHUNK_SIZE slots and stashing every full chunk once more
 * symbols arrive. The list it makes is empty, one trimmed array, or a ChunkedSymbolList that
 * addresses symbol p at chunk (p-1)/CHUNK_SIZE, offset (p-1)%CHUNK_SIZE, with the last chunk
 * read cached in fields of the factory.
 *
 * A symbol slot is Option<Symbol>, None standing for a null array element. The packed symbol
 * lists the pluggable SymbolListFactory makes of a chunk are modelled as a copy of the chunk.
 */
module Chunked {
  import opened Wrappers
  import opened JavaLang

  /** 1 << 14 */
  const CHUNK_SIZE: int := 16384

  datatype Symbol = Symbol(token: char)
  datatype Alphabet = Alphabet(name: string)

  /** An element of a Symbol[]; None is null. */
  type Slot = Option<Symbol>

  datatype ChunkError =
    | IllegalAlphabet   // IllegalAlphabetException: "Alphabet changed!"
    | NotTiling         // IllegalArgumentException: a full chunk holds a null
    | MakeLocked        // BioException: make() after addSymbols()
    | OutOfBounds       // IndexOutOfBoundsException (or ArrayIndexOutOfBoundsException)
    | EndBeforeStart    // IllegalArgumentException: end lower than start
    | NullChunk         // NullPointerException: no chunk cached yet

  /** The chunks one after another. */
  function Concat(cs: seq<seq<Slot>>): seq<Slot>
  {
    if cs == [] then [] else Concat(cs[..|cs| - 1]) + cs[|cs| - 1]
  }

  lemma ConcatAppend(cs: seq<seq<Slot>>, c: seq<Slot>)
    ensures Concat(cs + [c]) == Concat(cs) + c
  {
    assert (cs + [c])[..|cs|] == cs;
  }

  /** Every chunk but the last is full; the last holds between 1 and size slots. */
  predicate Tiling(cs: seq<seq<Slot>>, size: int)
  {
    size > 0 &&
    (forall i :: 0 <= i < |cs| - 1 ==> |cs[i]| == size) &&
    (cs != [] ==> 0 < |cs[|cs| - 1]| <= size)
  }

  lemma {:induction false} TilingLength(cs: seq<seq<Slot>>, size: int)
    requires Tiling(cs, size) && cs != []
    ensures |Concat(cs)| == (|cs| - 1) * size + |cs[|cs| - 1]|
  {
    var init := cs[..|cs| - 1];
    if init != [] {
      assert Tiling(init, size);
      TilingLength(init, size);
    }
  }

  /** A non-negative dividend has a non-negative quotient. */
  lemma DivNonNegative(a: int, b: int)
    requires a >= 0 && b > 0
    ensures a / b >= 0
  {
    var d := a / b;
    assert d * b == a - a % b;
    if d < 0 {
      MulAtLeast(-d, b);
    }
  }

  lemma MulNonNegative(a: int, b: int)
    requires a >= 0 && b >= 0
    ensures a * b >= 0
  {
  }

  /** Slot r of chunk q sits at position q * size + r of the tiled chunks. */
  lemma {:induction false} ChunkAt(cs: seq<seq<Slot>>, size: int, q: int, r: int)
    requires Tiling(cs, size) && 0 <= q < |cs| && 0 <= r < |cs[q]|
    ensures q * size + r < |Concat(cs)| && Concat(cs)[q * size + r] == cs[q][r]
  {
    var n := |cs| - 1;
    var init := cs[..n];
    assert Concat(cs) == Concat(init) + cs[n];
    if init != [] {
      assert Tiling(init, size);
      TilingLength(init, size);
      assert (n - 1) * size + size == n * size;
    }
    assert |Concat(init)| == n * size;
    var base := q * size;
    if q == n {
    } else {
      ChunkAt(init, size, q, r);
      assert Concat(cs)[base + r] == Concat(init)[base + r];
    }
  }

  /** A chunk index and offset naming no slot lie at or past the end of the tiled chunks. */
  lemma Beyond(cs: seq<seq<Slot>>, size: int, q: int, r: int)
    requires Tiling(cs, size) && q >= 0 && 0 <= r < size && !(q < |cs| && r < |cs[q]|)
    ensures q * size + r >= |Concat(cs)|
  {
    if cs != [] {
      TilingLength(cs, size);
      var n := |cs| - 1;
      if q > n {
        assert q * size - n * size == (q - n) * size;
        MulAtLeast(q - n, size);
      }
    }
  }

  /**
   * Position p (0-based) of the tiled chunks is slot p % size of chunk p / size, and lies
   * inside the chunks exactly when that slot exists.
   */
  lemma TilingAddress(cs: seq<seq<Slot>>, size: int, p: int)
    requires Tiling(cs, size) && p >= 0
    ensures p < |Concat(cs)| <==> p / size < |cs| && p % size < |cs[p / size]|
    ensures p < |Concat(cs)| ==> Concat(cs)[p] == cs[p / size][p % size]
  {
    var q, r := p / size, p % size;
    assert p == q * size + r;
    if q < |cs| && r < |cs[q]| {
      ChunkAt(cs, size, q, r);
    } else {
      Beyond(cs, size, q, r);
    }
  }

  /** Slots lo..hi of chunk c are the stretch of the tiled chunks that starts at c * size + lo. */
  lemma ChunkSlice(cs: seq<seq<Slot>>, size: int, c: int, lo: int, hi: int)
    requires Tiling(cs, size) && 0 <= c < |cs| && 0 <= lo <= hi < |cs[c]|
    ensures c * size + hi < |Concat(cs)|
    ensures cs[c][lo..hi + 1] == Concat(cs)[c * size + lo .. c * size + hi + 1]
  {
    var base := c * size;
    ChunkAt(cs, size, c, hi);
    var s, t := cs[c][lo..hi + 1], Concat(cs)[base + lo .. base + hi + 1];
    assert s == t by {
      forall i | 0 <= i < |s|
        ensures s[i] == t[i]
      {
        ChunkAt(cs, size, c, lo + i);
        assert s[i] == cs[c][lo + i] && t[i] == Concat(cs)[base + (lo + i)];
      }
    }
  }

  /** System.arraycopy from a source of slots into dst, n slots from srcPos to dstPos. */
  method ArrayCopy(src: seq<Slot>, srcPos: int, dst: array<Slot>, dstPos: int, n: int)
    requires 0 <= n && 0 <= srcPos && srcPos + n <= |src| && 0 <= dstPos && dstPos + n <= dst.Length
    modifies dst
    ensures dst[..dstPos] == old(dst[..dstPos])
    ensures dst[dstPos..dstPos + n] == src[srcPos..srcPos + n]
    ensures dst[dstPos + n..] == old(dst[dstPos + n..])
  {
    forall i | dstPos <= i < dstPos + n {
      dst[i] := src[srcPos + i - dstPos];
    }
  }

  /** The check before a full chunk is stashed: true when no slot is null. */
  method NoNulls(a: array<Slot>) returns (ok: bool)
    ensures ok <==> forall i :: 0 <= i < a.Length ==> a[i].Some?
  {
    for i := 0 to a.Length
      invariant forall j :: 0 <= j < i ==> a[j].Some?
    {
      if a[i].None? {
        return false;
      }
    }
    return true;
  }

  /** The read from the cached chunk: a NullPointerException before any chunk is cached. */
  function ReadCached(chunk: Option<seq<Slot>>, offset: int): (r: Result<Slot, ChunkError>)
    ensures r.Ok? <==> chunk.Some? && 0 <= offset < |chunk.value|
    ensures r.Ok? ==> r.value == chunk.value[offset]
    ensures chunk.None? ==> r == Err(NullChunk)
  {
    if chunk.None? then Err(NullChunk)
    else if offset + 1 < 1 || offset + 1 > |chunk.value| then Err(OutOfBounds)
    else Ok(chunk.value[offset])
  }

  /** The cache of ChunkedSymbolList.symbolAt: a window of positions and the chunk holding them. */
  class ChunkCache {
    var currentMin: int
    var currentMax: int
    var currentChunk: Option<seq<Slot>>

    constructor()
      ensures currentMin == INT_MAX && currentMax == INT_MIN && currentChunk == None
    {
      currentMin := INT_MAX;
      currentMax := INT_MIN;
      currentChunk := None;
    }
  }

  /** What subList hands back: chunk-relative bounds (1-based) in one chunk, or a view of the list. */
  datatype SubList = ChunkSub(chunk: int, start: int, end: int) | View(start: int, end: int)

  class ChunkedSymbolList {
    const chunks: seq<seq<Slot>>
    const chunkSize: int
    const length: int
    const alpha: Option<Alphabet>
    /** The cache symbolAt reads and rewrites. */
    const cache: ChunkCache

    constructor(chunks: seq<seq<Slot>>, chunkSize: int, length: int, alpha: Option<Alphabet>, cache: ChunkCache)
      ensures this.chunks == chunks && this.chunkSize == chunkSize && this.length == length
      ensures this.alpha == alpha && this.cache == cache
    {
      this.chunks := chunks;
      this.chunkSize := chunkSize;
      this.length := length;
      this.alpha := alpha;
      this.cache := cache;
    }

    /** The symbols of the list, chunk after chunk. */
    function Symbols(): seq<Slot>
    {
      Concat(chunks)
    }

    /** The chunks tile the list and its length counts them, as makeSymbolList builds it. */
    predicate Tiled()
    {
      Tiling(chunks, chunkSize) && IsInt(chunkSize) && length == |Symbols()| && IsInt(length)
    }

    /** The cache window is empty, or it is one whole chunk of this list with that chunk cached. */
    predicate CacheAgrees()
      reads cache
    {
      chunkSize > 0 &&
      (cache.currentMin > cache.currentMax ||
       (0 <= cache.currentMin && cache.currentMin % chunkSize == 0 &&
        cache.currentMax == cache.currentMin + chunkSize - 1 &&
        cache.currentMin / chunkSize < |chunks| &&
        cache.currentChunk == Some(chunks[cache.currentMin / chunkSize])))
    }

    /** The 0-based index symbolAt computes from a position: pos - 1 in int arithmetic. */
    static lemma IndexOf(pos: int)
      requires IsInt(pos)
      ensures ToInt(pos - 1) == if pos == INT_MIN then INT_MAX else pos - 1
    {
    }

    /** Where a missed position moves the window: the chunk-aligned stretch around it. */
    static lemma WindowAround(p: int, size: int)
      requires 0 <= p <= INT_MAX && 0 < size <= INT_MAX
      ensures var m := p - p % size;
        0 <= m <= p <= m + size - 1 && m % size == 0 && m / size == p / size
    {
      var q, r := p / size, p % size;
      var m := p - r;
      assert m == q * size;
      DivNonNegative(p, size);
      MulNonNegative(q, size);
      DivModUnique(m, size, q, 0);
    }

    /** The window's last position in int arithmetic: exact, or wrapped below its first. */
    static lemma WindowEnd(m: int, size: int)
      requires 0 <= m <= INT_MAX && 0 < size <= INT_MAX
      ensures ToInt(m + size - 1) == m + size - 1 || ToInt(m + size - 1) < m
    {
      if m + size - 1 > INT_MAX {
        ToIntWrapsOnce(m + size - 1);
      }
    }

    /** A negative index lands in chunk 0 only when it is above -size, and then is its own offset. */
    static lemma NegativeQuot(p: int, size: int)
      requires p < 0 < size
      ensures Quot(p, size) <= 0 && (Quot(p, size) == 0 ==> Rem(p, size) == p)
    {
      assert (-p) / size >= 0;
    }

    /**
     * What a missed index leads to: the chunk and offset Java's `/` and `%` give, the window
     * they set, and whether that chunk and offset hold the index's symbol.
     */
    lemma MissLands(p: int)
      requires Tiled() && IsInt(p)
      ensures var chnk, offset := Quot(p, chunkSize), Rem(p, chunkSize);
        var m := ToInt(p - offset);
        var top := ToInt(m + chunkSize - 1);
        (p >= 0 ==> chnk == p / chunkSize && m == p - p % chunkSize) &&
        (0 <= chnk < |chunks| ==> top < m || (0 <= m && m % chunkSize == 0 && top == m + chunkSize - 1 && m / chunkSize == chnk)) &&
        (0 <= p < length <==> 0 <= chnk < |chunks| && 0 <= offset < |chunks[chnk]|) &&
        (0 <= p < length ==> Symbols()[p] == chunks[chnk][offset])
    {
      if p >= 0 {
        QuotRemNonNegative(p, chunkSize);
        WindowAround(p, chunkSize);
        WindowEnd(p - Rem(p, chunkSize), chunkSize);
        TilingAddress(chunks, chunkSize, p);
      } else {
        NegativeQuot(p, chunkSize);
        WindowAround(0, chunkSize);
      }
    }

    /** A position inside an agreeing window is read from the cached chunk at its offset. */
    lemma InWindow(p: int)
      requires Tiled() && CacheAgrees() && cache.currentMin <= p <= cache.currentMax
      ensures p / chunkSize == cache.currentMin / chunkSize && p % chunkSize == p - cache.currentMin
    {
      DivModUnique(p, chunkSize, cache.currentMin / chunkSize, p - cache.currentMin);
    }

    /**
     * The miss branch of symbolAt: the window moves to the chunk-aligned stretch around index p;
     * the chunk is cached only when it exists.
     */
    method MoveWindow(p: int) returns (found: bool, offset: int)
      requires IsInt(p) && chunkSize > 0
      modifies cache
      ensures offset == Rem(p, chunkSize)
      ensures cache.currentMin == ToInt(p - offset) && cache.currentMax == ToInt(cache.currentMin + chunkSize - 1)
      ensures found <==> 0 <= Quot(p, chunkSize) < |chunks|
      ensures found ==> cache.currentChunk == Some(chunks[Quot(p, chunkSize)])
      ensures !found ==> cache.currentChunk == old(cache.currentChunk)
    {
      var chnk := Quot(p, chunkSize);
      offset := Rem(p, chunkSize);
      cache.currentMin := ToInt(p - offset);
      cache.currentMax := ToInt(cache.currentMin + chunkSize - 1);
      if chnk < 0 || chnk >= |chunks| {
        return false, offset;
      }
      cache.currentChunk := Some(chunks[chnk]);
      return true, offset;
    }

    /**
     * symbolAt: a position outside the cached window moves the window to the chunk holding it
     * and caches that chunk; the symbol is then read from the cached chunk. The window is moved
     * before the chunk index is checked, so a position past the last chunk leaves the window
     * on a chunk that does not exist with the previous chunk still cached.
     */
    method SymbolAt(pos: int) returns (r: Result<Slot, ChunkError>)
      requires IsInt(pos) && chunkSize > 0
      modifies cache
      ensures old(cache.currentMin) <= ToInt(pos - 1) <= old(cache.currentMax) ==>
        cache.currentMin == old(cache.currentMin) && cache.currentMax == old(cache.currentMax) &&
        cache.currentChunk == old(cache.currentChunk) &&
        r == ReadCached(old(cache.currentChunk), ToInt(pos - 1) - old(cache.currentMin))
      ensures Tiled() && 0 < pos && !(old(cache.currentMin) <= pos - 1 <= old(cache.currentMax)) ==>
        cache.currentMin == pos - 1 - (pos - 1) % chunkSize &&
        cache.currentMax == ToInt(cache.currentMin + chunkSize - 1) &&
        (0 <= (pos - 1) / chunkSize < |chunks| ==> cache.currentChunk == Some(chunks[(pos - 1) / chunkSize])) &&
        ((pos - 1) / chunkSize >= |chunks| ==> cache.currentChunk == old(cache.currentChunk) && r == Err(OutOfBounds))
      ensures Tiled() && old(CacheAgrees()) ==> (r.Ok? <==> 1 <= pos <= length)
      ensures Tiled() && old(CacheAgrees()) && 1 <= pos <= length ==> r == Ok(Symbols()[pos - 1]) && CacheAgrees()
    {
      var p := ToInt(pos - 1);
      IndexOf(pos);
      var offset: int;
      if p < cache.currentMin || p > cache.currentMax {
        if Tiled() {
          MissLands(p);
        }
        var found;
        found, offset := MoveWindow(p);
        if !found {
          return Err(OutOfBounds);
        }
      } else {
        offset := p - cache.currentMin;
        if Tiled() && CacheAgrees() {
          InWindow(p);
          TilingAddress(chunks, chunkSize, p);
        }
      }
      r := ReadCached(cache.currentChunk, offset);
    }

    /**
     * symbolAt with the chunk index checked before the window moves: the window and the cached
     * chunk then always agree, and every position past the end is refused.
     */
    method SymbolAtChecked(pos: int) returns (r: Result<Slot, ChunkError>)
      requires IsInt(pos) && chunkSize > 0
      modifies cache
      ensures Tiled() && old(CacheAgrees()) ==> CacheAgrees()
      ensures Tiled() && old(CacheAgrees()) ==> (r.Ok? <==> 1 <= pos <= length)
      ensures Tiled() && old(CacheAgrees()) && 1 <= pos <= length ==> r == Ok(Symbols()[pos - 1])
    {
      var p := ToInt(pos - 1);
      IndexOf(pos);
      var offset: int;
      if p < cache.currentMin || p > cache.currentMax {
        if Tiled() {
          MissLands(p);
        }
        var chnk := Quot(p, chunkSize);
        if chnk < 0 || chnk >= |chunks| {
          return Err(OutOfBounds);
        }
        var found;
        found, offset := MoveWindow(p);
      } else {
        offset := p - cache.currentMin;
        if Tiled() && CacheAgrees() {
          InWindow(p);
          TilingAddress(chunks, chunkSize, p);
        }
      }
      r := ReadCached(cache.currentChunk, offset);
    }

    /**
     * subList: bounds checked against the list; a range inside one chunk is that chunk's
     * sub-list with chunk-relative bounds, any other range a view of the whole list.
     */
    function SubList(start: int, end: int): (r: Result<SubList, ChunkError>)
      requires chunkSize > 0
      ensures r == Err(OutOfBounds) <==> start < 1 || end > length
      ensures r == Err(EndBeforeStart) <==> 1 <= start && end <= length && end < start
      ensures r.Ok? && r.value.View? ==> r.value == View(start, end)
      ensures Tiled() && r.Ok? && r.value.ChunkSub? ==>
        var c := r.value.chunk;
        0 <= c < |chunks| && 1 <= r.value.start <= r.value.end <= |chunks[c]| &&
        chunks[c][r.value.start - 1 .. r.value.end] == Symbols()[start - 1 .. end]
    {
      if start < 1 || end > length then Err(OutOfBounds)
      else if end < start then Err(EndBeforeStart)
      else
        var afrom := start - 1;
        var ato := end - 1;
        var cfrom := Quot(afrom, chunkSize);
        if Quot(ato, chunkSize) == cfrom then
          var sub := ChunkSub(cfrom, Rem(afrom, chunkSize) + 1, Rem(ato, chunkSize) + 1);
          SubListInChunk(afrom, ato);
          Ok(sub)
        else Ok(View(start, end))
    }

    /** A range of positions inside one chunk reads as the matching stretch of that chunk. */
    lemma SubListInChunk(afrom: int, ato: int)
      requires chunkSize > 0 && 0 <= afrom <= ato && ato / chunkSize == afrom / chunkSize
      ensures Quot(afrom, chunkSize) == afrom / chunkSize && Rem(afrom, chunkSize) == afrom % chunkSize
      ensures Quot(ato, chunkSize) == ato / chunkSize && Rem(ato, chunkSize) == ato % chunkSize
      ensures Tiled() && ato < length ==>
        var c := afrom / chunkSize;
        0 <= c < |chunks| && afrom % chunkSize <= ato % chunkSize < |chunks[c]| &&
        chunks[c][afrom % chunkSize .. ato % chunkSize + 1] == Symbols()[afrom .. ato + 1]
    {
      QuotRemNonNegative(afrom, chunkSize);
      QuotRemNonNegative(ato, chunkSize);
      if Tiled() && ato < length {
        var c, lo, hi := afrom / chunkSize, afrom % chunkSize, ato % chunkSize;
        TilingAddress(chunks, chunkSize, ato);
        DivNonNegative(afrom, chunkSize);
        assert afrom == c * chunkSize + lo && ato == c * chunkSize + hi;
        assert lo <= hi;
        ChunkSlice(chunks, chunkSize, c, lo, hi);
      }
    }
  }

  /** No slot of the symbols is null. */
  predicate AllPresent(s: seq<Slot>)
  {
    forall i :: 0 <= i < |s| ==> s[i].Some?
  }

  lemma PresentSuffix(a: seq<Slot>, b: seq<Slot>)
    requires AllPresent(a + b)
    ensures AllPresent(b)
  {
    forall i | 0 <= i < |b|
      ensures b[i].Some?
    {
      assert b[i] == (a + b)[|a| + i];
    }
  }

  /** No slot of s from lo up to hi is null. */
  predicate PresentIn(s: seq<Slot>, lo: int, hi: int)
    requires 0 <= lo <= hi <= |s|
  {
    forall i :: lo <= i < hi ==> s[i].Some?
  }

  lemma PresentAppend(a: seq<Slot>, s: seq<Slot>, lo: int, hi: int)
    requires 0 <= lo <= hi <= |s| && AllPresent(a) && PresentIn(s, lo, hi)
    ensures AllPresent(a + s[lo..hi])
  {
    forall i | 0 <= i < |a + s[lo..hi]|
      ensures (a + s[lo..hi])[i].Some?
    {
      if i >= |a| {
        assert (a + s[lo..hi])[i] == s[lo + i - |a|];
      }
    }
  }

  /** Appending the stretch of s from mid to hi to its stretch from lo to mid gives lo to hi. */
  lemma Extend(a: seq<Slot>, s: seq<Slot>, lo: int, mid: int, hi: int)
    requires 0 <= lo <= mid <= hi <= |s|
    ensures (a + s[lo..mid]) + s[mid..hi] == a + s[lo..hi]
  {
    assert s[lo..hi] == s[lo..mid] + s[mid..hi];
  }

  /** The first n symbols of syms from pos; none when n is 0. */
  function Taken(syms: seq<Slot>, pos: int, n: int): (t: seq<Slot>)
    requires n == 0 || (n > 0 && 0 <= pos && pos + n <= |syms|)
    ensures |t| == n
  {
    if n == 0 then [] else syms[pos..pos + n]
  }

  lemma TakenMore(a: seq<Slot>, syms: seq<Slot>, pos: int, n: int, m: int)
    requires 0 <= n && 0 < m && 0 <= pos && pos + n + m <= |syms|
    ensures (a + Taken(syms, pos, n)) + syms[pos + n..pos + n + m] == a + Taken(syms, pos, n + m)
  {
    if n == 0 {
      assert pos + n == pos;
    } else {
      Extend(a, syms, pos, pos + n, pos + n + m);
    }
  }

  /** What makeSymbolList hands back. */
  datatype MadeList =
    | EmptyList
    | SubArray(symbols: seq<Slot>, alphabet: Option<Alphabet>)
    | Chunks(list: ChunkedSymbolList)

  /**
   * r holds exactly the symbols s in the shape makeSymbolList picks for their number: none, at
   * most one chunk's worth in a trimmed array, or a tiling of chunks whose int length wraps
   * only past Integer.MAX_VALUE symbols.
   */
  ghost predicate Holds(r: MadeList, s: seq<Slot>, alpha: Option<Alphabet>)
  {
    (r == EmptyList <==> s == []) &&
    (r.SubArray? <==> 0 < |s| <= CHUNK_SIZE) &&
    (r.SubArray? ==> r.symbols == s && r.alphabet == alpha) &&
    (r.Chunks? ==>
      r.list.chunkSize == CHUNK_SIZE && Tiling(r.list.chunks, CHUNK_SIZE) && r.list.Symbols() == s &&
      r.list.length == ToInt(|s|) && r.list.alpha == alpha && (IsInt(|s|) ==> r.list.Tiled()))
  }

  class ChunkedSymbolListFactory {
    var alfa: Option<Alphabet>
    var headChunk: array?<Slot>
    var headChunkPos: int
    /** The stashed chunks, each CHUNK_SIZE slots long. */
    var chunkL: seq<seq<Slot>>
    /** Cleared by addSymbols: make() may only be used on a factory nobody has added to. */
    var canDoMake: bool
    /** currentMin, currentMax and currentChunk: the factory's fields every list it makes reads. */
    const cache: ChunkCache
    /** The symbols added so far: the stashed chunks, then the filled part of the head chunk. */
    ghost var contents: seq<Slot>

    constructor()
      ensures Valid() && contents == [] && canDoMake && alfa == None && headChunk == null
      ensures fresh(cache) && cache.currentMin == INT_MAX && cache.currentMax == INT_MIN && cache.currentChunk == None
    {
      alfa := None;
      headChunk := null;
      headChunkPos := 0;
      chunkL := [];
      canDoMake := true;
      cache := new ChunkCache();
      contents := [];
    }

    /** The head chunk and the stashed chunks have CHUNK_SIZE slots; headChunkPos is within the head chunk. */
    ghost predicate Shaped()
      reads this`headChunk, this`headChunkPos, this`chunkL, this`contents, headChunk
    {
      0 <= headChunkPos &&
      (headChunk == null ==> headChunkPos == 0 && chunkL == []) &&
      (headChunk != null ==> headChunk.Length == CHUNK_SIZE && headChunkPos <= CHUNK_SIZE) &&
      (forall i :: 0 <= i < |chunkL| ==> |chunkL[i]| == CHUNK_SIZE)
    }

    /** The chunks hold the contents in order. */
    ghost predicate Linked()
      reads this`headChunk, this`headChunkPos, this`chunkL, this`contents, headChunk
    {
      Shaped() && contents == Concat(chunkL) + (if headChunk == null then [] else headChunk[..headChunkPos])
    }

    /** Between calls the head chunk is never empty once a chunk has been stashed. */
    ghost predicate Valid()
      reads this`headChunk, this`headChunkPos, this`chunkL, this`contents, headChunk
    {
      Linked() && (chunkL != [] ==> headChunkPos > 0)
    }

    /** Every stashed chunk passed the tiling check. */
    ghost predicate StashedPresent()
      reads this`chunkL
    {
      forall i :: 0 <= i < |chunkL| ==> AllPresent(chunkL[i])
    }

    /**
     * The full head chunk is checked for nulls and, when it has none, stashed; an empty head
     * chunk takes its place.
     */
    method Stash() returns (ok: bool)
      requires Valid() && headChunk != null && headChunkPos == CHUNK_SIZE
      modifies this
      ensures Linked() && alfa == old(alfa) && canDoMake == old(canDoMake)
      ensures ok <==> AllPresent(old(headChunk[..]))
      ensures !ok ==> headChunk == old(headChunk) && headChunkPos == old(headChunkPos) && chunkL == old(chunkL)
      ensures ok ==> fresh(headChunk) && headChunkPos == 0 && chunkL == old(chunkL) + [old(headChunk[..])]
      ensures contents == old(contents)
      ensures old(StashedPresent()) ==> StashedPresent()
      ensures AllPresent(old(contents)) ==> ok
    {
      assert headChunk[..] == headChunk[..headChunkPos];
      if AllPresent(contents) {
        PresentSuffix(Concat(chunkL), headChunk[..]);
      }
      ok := NoNulls(headChunk);
      if !ok {
        return;
      }
      var full := headChunk[..];
      assert contents == Concat(chunkL) + full;
      ConcatAppend(chunkL, full);
      chunkL := chunkL + [full];
      headChunk := new Slot[CHUNK_SIZE](_ => None);
      headChunkPos := 0;
    }

    /** System.arraycopy of n symbols of syms from position from into the head chunk. */
    method Fill(syms: seq<Slot>, from: int, n: int)
      requires Linked() && headChunk != null && 0 < n <= CHUNK_SIZE - headChunkPos
      requires 0 <= from && from + n <= |syms|
      modifies this, headChunk
      ensures Valid() && headChunk == old(headChunk) && chunkL == old(chunkL)
      ensures alfa == old(alfa) && canDoMake == old(canDoMake)
      ensures headChunkPos == old(headChunkPos) + n
      ensures contents == old(contents) + syms[from..from + n]
    {
      ArrayCopy(syms, from, headChunk, headChunkPos, n);
      assert headChunk[..headChunkPos + n] == headChunk[..headChunkPos] + headChunk[headChunkPos..headChunkPos + n];
      headChunkPos := headChunkPos + n;
      contents := contents + syms[from..from + n];
    }

    /** Fill, when the symbols already in are the first ipos from pos. */
    method FillMore(syms: seq<Slot>, ghost start: seq<Slot>, pos: int, ipos: int, n: int)
      requires Linked() && headChunk != null && 0 < n <= CHUNK_SIZE - headChunkPos
      requires 0 <= ipos && 0 <= pos && pos + ipos + n <= |syms|
      requires contents == start + Taken(syms, pos, ipos)
      modifies this, headChunk
      ensures Valid() && headChunk == old(headChunk) && chunkL == old(chunkL)
      ensures alfa == old(alfa) && canDoMake == old(canDoMake)
      ensures contents == old(contents) + syms[pos + ipos..pos + ipos + n]
      ensures contents == start + Taken(syms, pos, ipos + n)
    {
      Fill(syms, pos + ipos, n);
      TakenMore(start, syms, pos, ipos, n);
    }

    /**
     * One turn of the addSymbols loop, ipos of the len symbols from pos being already in: a full
     * head chunk is stashed first, then as many of the symbols left as the head chunk has room
     * for are copied in. The copy, System.arraycopy, fails with IndexOutOfBoundsException and
     * copies nothing when those symbols are not all inside syms.
     */
    method Step(syms: seq<Slot>, ghost start: seq<Slot>, pos: int, ipos: int, len: int) returns (r: Result<int, ChunkError>)
      requires Valid() && headChunk != null && 0 <= ipos < len
      requires ipos > 0 ==> 0 <= pos && pos + ipos <= |syms|
      requires contents == start + Taken(syms, pos, ipos)
      modifies this, headChunk
      ensures Linked() && headChunk != null && (headChunk == old(headChunk) || fresh(headChunk))
      ensures r != Err(OutOfBounds) ==> Valid()
      ensures alfa == old(alfa) && canDoMake == old(canDoMake)
      ensures r.Ok? ==> 0 < r.value <= len - ipos && 0 <= pos && pos + ipos + r.value <= |syms|
      ensures r.Ok? ==> contents == start + Taken(syms, pos, ipos + r.value)
      ensures r.Err? ==> contents == old(contents) && (r.error == NotTiling || r.error == OutOfBounds)
      ensures r == Err(NotTiling) ==> headChunkPos == CHUNK_SIZE && !AllPresent(headChunk[..])
      ensures r == Err(OutOfBounds) ==> pos < 0 || pos + len > |syms|
      ensures 0 <= pos && pos + len <= |syms| ==> r != Err(OutOfBounds)
      ensures old(StashedPresent()) ==> StashedPresent()
      ensures AllPresent(old(contents)) && 0 <= pos && pos + len <= |syms| && PresentIn(syms, pos, pos + len) ==>
        r.Ok? && AllPresent(contents)
    {
      if headChunkPos == CHUNK_SIZE {
        var ok := Stash();
        if !ok {
          return Err(NotTiling);
        }
      }
      r := CopyIn(syms, start, pos, ipos, len);
    }

    /**
     * The copy of one turn of the addSymbols loop: as many of the symbols left as the head
     * chunk has room for, or IndexOutOfBoundsException, with nothing copied, when they are not
     * all inside syms.
     */
    method CopyIn(syms: seq<Slot>, ghost start: seq<Slot>, pos: int, ipos: int, len: int) returns (r: Result<int, ChunkError>)
      requires Linked() && headChunk != null && headChunkPos < CHUNK_SIZE && 0 <= ipos < len
      requires ipos > 0 ==> 0 <= pos && pos + ipos <= |syms|
      requires contents == start + Taken(syms, pos, ipos)
      modifies this, headChunk
      ensures Linked() && headChunk == old(headChunk) && chunkL == old(chunkL)
      ensures r.Ok? ==> Valid()
      ensures r.Err? ==> headChunkPos == old(headChunkPos)
      ensures alfa == old(alfa) && canDoMake == old(canDoMake)
      ensures r.Ok? ==> 0 < r.value <= len - ipos && 0 <= pos && pos + ipos + r.value <= |syms|
      ensures r.Ok? ==> contents == start + Taken(syms, pos, ipos + r.value)
      ensures r.Err? ==> r == Err(OutOfBounds) && contents == old(contents) && (pos < 0 || pos + len > |syms|)
      ensures AllPresent(old(contents)) && 0 <= pos && pos + len <= |syms| && PresentIn(syms, pos, pos + len) ==>
        r.Ok? && AllPresent(contents)
    {
      var read := if len - ipos < CHUNK_SIZE - headChunkPos then len - ipos else CHUNK_SIZE - headChunkPos;
      if pos + ipos < 0 || pos + ipos + read > |syms| {
        assert pos < 0 || pos + len > |syms| by {
          if ipos > 0 { assert pos + ipos + read <= pos + len; }
        }
        return Err(OutOfBounds);
      }
      ghost var before := contents;
      FillMore(syms, start, pos, ipos, read);
      if AllPresent(before) && 0 <= pos && pos + len <= |syms| && PresentIn(syms, pos, pos + len) {
        PresentAppend(before, syms, pos + ipos, pos + ipos + read);
      }
      return Ok(read);
    }

    /**
     * The loop of addSymbols: len symbols of syms from pos go into the head chunk, a full head
     * chunk being stashed whenever more symbols follow. A failure leaves in the symbols copied
     * before it, and every chunk stashed on the way.
     */
    method Transfer(syms: seq<Slot>, pos: int, len: int) returns (r: Result<(), ChunkError>, ghost added: int)
      requires Valid() && headChunk != null && 0 < len
      modifies this, headChunk
      ensures Linked() && alfa == old(alfa) && canDoMake == old(canDoMake)
      ensures r != Err(OutOfBounds) ==> Valid()
      ensures r.Ok? ==> 0 <= pos && pos + len <= |syms| && contents == old(contents) + syms[pos..pos + len]
      ensures r.Err? ==> r.error == NotTiling || r.error == OutOfBounds
      ensures r.Err? ==>
        0 <= added < len && (added > 0 ==> 0 <= pos && pos + added <= |syms|) &&
        contents == old(contents) + Taken(syms, pos, added)
      ensures r == Err(NotTiling) ==> headChunk != null && headChunkPos == CHUNK_SIZE && !AllPresent(headChunk[..])
      ensures r == Err(OutOfBounds) ==> pos < 0 || pos + len > |syms|
      ensures 0 <= pos && pos + len <= |syms| ==> r != Err(OutOfBounds)
      ensures old(StashedPresent()) ==> StashedPresent()
      ensures AllPresent(old(contents)) && 0 <= pos && pos + len <= |syms| && PresentIn(syms, pos, pos + len) ==> r.Ok?
    {
      ghost var present := AllPresent(contents) && 0 <= pos && pos + len <= |syms| && PresentIn(syms, pos, pos + len);
      var ipos := 0;
      while ipos < len
        invariant 0 <= ipos <= len
        invariant ipos > 0 ==> 0 <= pos && pos + ipos <= |syms|
        invariant Valid() && headChunk != null && alfa == old(alfa) && canDoMake == old(canDoMake)
        invariant headChunk == old(headChunk) || fresh(headChunk)
        invariant contents == old(contents) + Taken(syms, pos, ipos)
        invariant old(StashedPresent()) ==> StashedPresent()
        invariant present ==> AllPresent(contents)
        decreases len - ipos
      {
        var step := Step(syms, old(contents), pos, ipos, len);
        if step.Err? {
          return Err(step.error), ipos;
        }
        ipos := ipos + step.value;
      }
      return Ok(()), len;
    }

    /**
     * addSymbols: appends len symbols of syms from pos, stashing the head chunk whenever it is
     * full and more symbols follow. A change of alphabet is refused before anything is added;
     * a full chunk holding a null is refused when it would be stashed; symbols outside syms
     * fail the copy with IndexOutOfBoundsException. Either failure keeps what was added before it.
     */
    method AddSymbols(alpha: Alphabet, syms: seq<Slot>, pos: int, len: int) returns (r: Result<(), ChunkError>, ghost added: int)
      requires Valid()
      modifies this, headChunk
      ensures Linked() && !canDoMake
      ensures r != Err(OutOfBounds) ==> Valid()
      ensures r == Err(IllegalAlphabet) <==> old(alfa).Some? && old(alfa).value != alpha
      ensures r == Err(IllegalAlphabet) ==> alfa == old(alfa) && contents == old(contents)
      ensures r != Err(IllegalAlphabet) ==> alfa == Some(alpha)
      ensures r.Ok? ==> len <= 0 || (0 <= pos && pos + len <= |syms|)
      ensures r.Ok? ==> contents == old(contents) + (if len <= 0 then [] else syms[pos..pos + len])
      ensures r == Err(NotTiling) || r == Err(OutOfBounds) ==>
        0 <= added < len && (added > 0 ==> 0 <= pos && pos + added <= |syms|) &&
        contents == old(contents) + Taken(syms, pos, added)
      ensures r == Err(NotTiling) ==>
        headChunk != null && headChunkPos == CHUNK_SIZE && !AllPresent(headChunk[..])
      ensures r == Err(OutOfBounds) ==> len > 0 && (pos < 0 || pos + len > |syms|)
      ensures len > 0 && 0 <= pos && pos + len <= |syms| ==> r != Err(OutOfBounds)
      ensures r.Ok? || r == Err(IllegalAlphabet) || r == Err(NotTiling) || r == Err(OutOfBounds)
      ensures old(StashedPresent()) ==> StashedPresent()
      ensures AllPresent(old(contents)) && (len > 0 ==> 0 <= pos && pos + len <= |syms| && PresentIn(syms, pos, pos + len)) ==>
        r != Err(NotTiling)
    {
      canDoMake := false;
      if alfa.None? {
        alfa := Some(alpha);
      } else if alfa.value != alpha {
        return Err(IllegalAlphabet), 0;
      }
      if headChunk == null {
        headChunk := new Slot[CHUNK_SIZE](_ => None);
        headChunkPos := 0;
      }
      if len <= 0 {
        return Ok(()), 0;
      }
      r, added := Transfer(syms, pos, len);
    }

    /** The state clearState leaves: no symbols, no alphabet, no head chunk, make() allowed. */
    ghost predicate Cleared()
      reads this`headChunk, this`headChunkPos, this`chunkL, this`contents, this`alfa, this`canDoMake, headChunk
    {
      Valid() && contents == [] && canDoMake && alfa == None && headChunk == null && chunkL == [] && headChunkPos == 0
    }

    /** clearState: the factory is ready for a new list; the cached window is kept. */
    method ClearState()
      modifies this
      ensures Cleared()
    {
      canDoMake := true;
      headChunk := null;
      headChunkPos := 0;
      chunkL := [];
      alfa := None;
      contents := [];
    }

    /** The chunks copied one by one into a fresh SymbolList[]. */
    static method ChunkArray(cs: seq<seq<Slot>>) returns (a: array<seq<Slot>>)
      ensures fresh(a) && a[..] == cs
    {
      a := new seq<Slot>[|cs|](_ => []);
      for cnum := 0 to |cs|
        invariant a[..cnum] == cs[..cnum]
      {
        a[cnum] := cs[cnum];
      }
      assert a[..|cs|] == a[..];
    }

    /**
     * makeSymbolList with the cache the list is to read: the symbols added so far become the
     * empty list, one array trimmed to their number, or a chunked list whose last chunk is the
     * filled part of the head chunk; the factory is cleared in every case.
     */
    method Build(c: ChunkCache) returns (r: MadeList)
      requires Valid()
      modifies this
      ensures Cleared()
      ensures Holds(r, old(contents), old(alfa))
      ensures r.Chunks? ==> fresh(r.list) && r.list.cache == c
    {
      if chunkL == [] {
        if headChunkPos == 0 {
          r := EmptyList;
        } else {
          var chunk: array<Slot> := headChunk;
          if headChunkPos < CHUNK_SIZE {
            chunk := new Slot[headChunkPos](_ => None);
            ArrayCopy(headChunk[..], 0, chunk, 0, headChunkPos);
            assert chunk[..] == chunk[0..headChunkPos];
          }
          assert contents == chunk[..];
          r := SubArray(chunk[..], alfa);
        }
      } else {
        if headChunkPos != 0 {
          ConcatAppend(chunkL, headChunk[..headChunkPos]);
          chunkL := chunkL + [headChunk[..headChunkPos]];
        }
        assert Tiling(chunkL, CHUNK_SIZE);
        TilingLength(chunkL, CHUNK_SIZE);
        var arr := ChunkArray(chunkL);
        var length := ToInt((|chunkL| - 1) * CHUNK_SIZE + headChunkPos);
        var list := new ChunkedSymbolList(arr[..], CHUNK_SIZE, length, alfa, c);
        r := Chunks(list);
      }
      ClearState();
    }

    /** makeSymbolList: every list made shares the factory's cached window. */
    method MakeSymbolList() returns (r: MadeList)
      requires Valid()
      modifies this
      ensures Cleared()
      ensures Holds(r, old(contents), old(alfa))
      ensures r.Chunks? ==> fresh(r.list) && r.list.cache == cache
    {
      r := Build(cache);
    }

    /** makeSymbolList giving each list a window of its own, which starts empty. */
    method MakeSymbolListOwnCache() returns (r: MadeList)
      requires Valid()
      modifies this
      ensures Cleared()
      ensures Holds(r, old(contents), old(alfa))
      ensures r.Chunks? ==> fresh(r.list) && fresh(r.list.cache) && r.list.CacheAgrees()
    {
      var own := new ChunkCache();
      r := Build(own);
    }

    /**
     * One turn of the make loop, next symbols of the reader being already in: a full head chunk
     * is stashed as it is and the same array refilled, with as many symbols as it has room for.
     */
    method ReadStep(reader: seq<Slot>, ghost start: seq<Slot>, next: int) returns (read: int)
      requires Valid() && headChunk != null && 0 <= next < |reader| && contents == start + reader[..next]
      modifies this, headChunk
      ensures Valid() && headChunk == old(headChunk) && alfa == old(alfa) && canDoMake == old(canDoMake)
      ensures 0 < read <= |reader| - next && contents == start + reader[..next + read]
    {
      if headChunkPos == CHUNK_SIZE {
        assert headChunk[..] == headChunk[..headChunkPos];
        ConcatAppend(chunkL, headChunk[..]);
        chunkL := chunkL + [headChunk[..]];
        headChunkPos := 0;
      }
      read := if |reader| - next < CHUNK_SIZE - headChunkPos then |reader| - next else CHUNK_SIZE - headChunkPos;
      Fill(reader, next, read);
      assert reader[..next + read] == reader[..next] + reader[next..next + read];
    }

    /** The loop of make: the reader's symbols fill the head chunk, each full chunk being stashed. */
    method ReadAll(reader: seq<Slot>)
      requires Valid() && headChunk != null
      modifies this, headChunk
      ensures Valid() && alfa == old(alfa) && canDoMake == old(canDoMake)
      ensures contents == old(contents) + reader
    {
      var next := 0;
      while next < |reader|
        invariant 0 <= next <= |reader|
        invariant Valid() && headChunk == old(headChunk) && alfa == old(alfa) && canDoMake == old(canDoMake)
        invariant contents == old(contents) + reader[..next]
      {
        var read := ReadStep(reader, old(contents), next);
        next := next + read;
      }
      assert reader[..next] == reader;
    }

    /**
     * make: refused once addSymbols has been used; otherwise the reader is read to its end, the
     * state cleared, and then makeSymbolList called on the cleared state, which always yields
     * the empty list.
     */
    method Make(reader: seq<Slot>, alphabet: Alphabet) returns (r: Result<MadeList, ChunkError>)
      requires Valid()
      modifies this
      ensures r == Err(MakeLocked) <==> !old(canDoMake)
      ensures r.Ok? || r == Err(MakeLocked)
      ensures r == Err(MakeLocked) ==> unchanged(this)
      ensures r.Ok? ==> r.value == EmptyList && Cleared()
    {
      if !canDoMake {
        return Err(MakeLocked);
      }
      chunkL := [];
      headChunk := new Slot[CHUNK_SIZE](_ => None);
      headChunkPos := 0;
      alfa := Some(alphabet);
      contents := [];
      ReadAll(reader);
      ClearState();
      var made := MakeSymbolList();
      return Ok(made);
    }

    /** make without the early clearState: the list holds what the reader delivered. */
    method MakeCorrected(reader: seq<Slot>, alphabet: Alphabet) returns (r: Result<MadeList, ChunkError>)
      requires Valid()
      modifies this
      ensures r == Err(MakeLocked) <==> !old(canDoMake)
      ensures r.Ok? || r == Err(MakeLocked)
      ensures r == Err(MakeLocked) ==> unchanged(this)
      ensures r.Ok? ==> Holds(r.value, reader, Some(alphabet)) && Cleared()
    {
      if !canDoMake {
        return Err(MakeLocked);
      }
      chunkL := [];
      headChunk := new Slot[CHUNK_SIZE](_ => None);
      headChunkPos := 0;
      alfa := Some(alphabet);
      contents := [];
      ReadAll(reader);
      var made := MakeSymbolList();
      return Ok(made);
    }
  }

  /**
   * symbolAt past the end of a two-symbol list of one chunk: the window moves to [2, 3] before
   * chunks[1] fails, the cached chunk stays chunk 0, and the same call again reads chunk 0.
   */
  method StaleWindowAsWritten() returns (first: Result<Slot, ChunkError>, second: Result<Slot, ChunkError>)
    ensures first == Err(OutOfBounds) && second == Ok(Some(Symbol('a')))
  {
    var cache := new ChunkCache();
    var list := new ChunkedSymbolList([[Some(Symbol('a')), Some(Symbol('b'))]], 2, 2, Some(Alphabet("DNA")), cache);
    assert list.Symbols() == [Some(Symbol('a')), Some(Symbol('b'))];
    var _ := list.SymbolAt(1);
    first := list.SymbolAt(3);
    second := list.SymbolAt(3);
  }

  /** The same calls with the chunk looked up before the window moves: both are refused. */
  method StaleWindowCorrected() returns (first: Result<Slot, ChunkError>, second: Result<Slot, ChunkError>)
    ensures first.Err? && second.Err?
  {
    var cache := new ChunkCache();
    var list := new ChunkedSymbolList([[Some(Symbol('a')), Some(Symbol('b'))]], 2, 2, Some(Alphabet("DNA")), cache);
    assert list.Symbols() == [Some(Symbol('a')), Some(Symbol('b'))];
    var _ := list.SymbolAtChecked(1);
    first := list.SymbolAtChecked(3);
    second := list.SymbolAtChecked(3);
  }

  /**
   * Two lists of CHUNK_SIZE + 1 symbols made one after the other by the same factory, the
   * first of 'a's, the second of 'b's: once the first has read position 1, the second's
   * position 1 hits the shared window and reads the first list's chunk.
   */
  method SharedWindowAsWritten() returns (second: ChunkedSymbolList, read: Result<Slot, ChunkError>)
    ensures second.Symbols() == seq(CHUNK_SIZE + 1, _ => Some(Symbol('b'))) && read == Ok(Some(Symbol('a')))
  {
    var f := new ChunkedSymbolListFactory();
    var dna := Alphabet("DNA");
    var aaa := seq(CHUNK_SIZE + 1, _ => Some(Symbol('a')));
    var bbb := seq(CHUNK_SIZE + 1, _ => Some(Symbol('b')));
    var r;
    ghost var added;
    r, added := f.AddSymbols(dna, aaa, 0, CHUNK_SIZE + 1);
    assert aaa[0..CHUNK_SIZE + 1] == aaa;
    var m1 := f.MakeSymbolList();
    r, added := f.AddSymbols(dna, bbb, 0, CHUNK_SIZE + 1);
    assert bbb[0..CHUNK_SIZE + 1] == bbb;
    var m2 := f.MakeSymbolList();
    var first := m1.list;
    second := m2.list;
    var _ := first.SymbolAt(1);
    ChunkAt(first.chunks, CHUNK_SIZE, 0, 0);
    read := second.SymbolAt(1);
  }

  /** The same two lists, each made with a window of its own: the second reads its own 'b'. */
  method SharedWindowCorrected() returns (second: ChunkedSymbolList, read: Result<Slot, ChunkError>)
    ensures second.Symbols() == seq(CHUNK_SIZE + 1, _ => Some(Symbol('b'))) && read == Ok(Some(Symbol('b')))
  {
    var f := new ChunkedSymbolListFactory();
    var dna := Alphabet("DNA");
    var aaa := seq(CHUNK_SIZE + 1, _ => Some(Symbol('a')));
    var bbb := seq(CHUNK_SIZE + 1, _ => Some(Symbol('b')));
    var r;
    ghost var added;
    r, added := f.AddSymbols(dna, aaa, 0, CHUNK_SIZE + 1);
    assert aaa[0..CHUNK_SIZE + 1] == aaa;
    var m1 := f.MakeSymbolListOwnCache();
    r, added := f.AddSymbols(dna, bbb, 0, CHUNK_SIZE + 1);
    assert bbb[0..CHUNK_SIZE + 1] == bbb;
    var m2 := f.MakeSymbolListOwnCache();
    var first := m1.list;
    second := m2.list;
    var _ := first.SymbolAt(1);
    read := second.SymbolAt(1);
  }

  /** make on a reader of one symbol hands back the empty list; without the early clear, the symbol. */
  method MakeDropsSymbols() returns (asWritten: Result<MadeList, ChunkError>, corrected: Result<MadeList, ChunkError>)
    ensures asWritten == Ok(EmptyList)
    ensures corrected == Ok(SubArray([Some(Symbol('a'))], Some(Alphabet("DNA"))))
  {
    var f := new ChunkedSymbolListFactory();
    asWritten := f.Make([Some(Symbol('a'))], Alphabet("DNA"));
    var g := new ChunkedSymbolListFactory();
    corrected := g.MakeCorrected([Some(Symbol('a'))], Alphabet("DNA"));
  }
}
