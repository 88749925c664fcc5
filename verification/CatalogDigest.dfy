/**
  The bytes fed to the two catalog digests, and the proof that they determine
  what was hashed: `CatalogContentsDigest` and `CatalogStreamsDigest`
  (vgi/catalog_contents.go).  SHA-256 itself is not modelled.

  Encoders are function values, so that each proof sees only that its parts are
  prefix-free: what follows an encoded value can be cut off again.
 */
module CatalogDigest {
  import opened Wrappers
  import opened Collections
  import opened ByteStrings

  type Encoder<!T> = T -> Bytes

  // ---- Fixed-width integers ----------------------------------------------

  /** All the other encoders ask of `PutUint64`: eight bytes that determine the value
      modulo 2^64. */
  ghost predicate FixedWidth(put: Encoder<int>) {
    && (forall a :: |put(a)| == 8)
    && (forall a, b :: put(a) == put(b) ==> a % TWO_64 == b % TWO_64)
  }

  lemma PutUint64IsFixedWidth()
    ensures FixedWidth(PutUint64)
  {
    assert Bound(4) == 0x1_0000_0000;
    assert Bound(8) == 256 * (256 * (256 * (256 * Bound(4))));
    forall a, b
      ensures |PutUint64(a)| == 8
      ensures PutUint64(a) == PutUint64(b) ==> a % TWO_64 == b % TWO_64
    {
      LittleEndianIsInjective(a % TWO_64, b % TWO_64, 8);
    }
  }

  lemma CountCuts(put: Encoder<int>, a: int, b: int, x: Bytes, y: Bytes)
    requires FixedWidth(put)
    requires put(a) + x == put(b) + y
    ensures a % TWO_64 == b % TWO_64 && x == y
  {
    assert put(a) == (put(a) + x)[..8] == (put(b) + y)[..8] == put(b);
    assert x == (put(a) + x)[8..] == (put(b) + y)[8..] == y;
  }

  // ---- Prefix-free encoders ----------------------------------------------

  ghost predicate Cuts<T(!new)>(enc: Encoder<T>, a: T, b: T) {
    forall x: Bytes, y: Bytes :: enc(a) + x == enc(b) + y ==> a == b && x == y
  }

  ghost predicate PrefixFree<T(!new)>(enc: Encoder<T>, ok: T -> bool) {
    forall a, b :: ok(a) && ok(b) ==> Cuts(enc, a, b)
  }

  lemma Cut<T(!new)>(enc: Encoder<T>, ok: T -> bool, a: T, b: T, x: Bytes, y: Bytes)
    requires PrefixFree(enc, ok) && ok(a) && ok(b)
    requires enc(a) + x == enc(b) + y
    ensures a == b && x == y
  {
    assert Cuts(enc, a, b);
  }

  function Each<T>(enc: Encoder<T>, xs: seq<T>): Bytes {
    if xs == [] then [] else enc(xs[0]) + Each(enc, xs[1..])
  }

  predicate AllOk<T>(ok: T -> bool, xs: seq<T>) {
    forall i :: 0 <= i < |xs| ==> ok(xs[i])
  }

  lemma {:induction false} EachCuts<T(!new)>(enc: Encoder<T>, ok: T -> bool, xs: seq<T>, ys: seq<T>, x: Bytes, y: Bytes)
    requires PrefixFree(enc, ok) && AllOk(ok, xs) && AllOk(ok, ys)
    requires |xs| == |ys|
    requires Each(enc, xs) + x == Each(enc, ys) + y
    ensures xs == ys && x == y
  {
    if xs == [] {
      assert Each(enc, xs) + x == x;
      assert Each(enc, ys) + y == y;
    } else {
      var tx, ty := Each(enc, xs[1..]) + x, Each(enc, ys[1..]) + y;
      assert Each(enc, xs) + x == enc(xs[0]) + tx;
      assert Each(enc, ys) + y == enc(ys[0]) + ty;
      Cut(enc, ok, xs[0], ys[0], tx, ty);
      EachCuts(enc, ok, xs[1..], ys[1..], x, y);
      assert xs == [xs[0]] + xs[1..];
      assert ys == [ys[0]] + ys[1..];
    }
  }

  /** A byte string behind its length. */
  function Chunk(put: Encoder<int>): Encoder<Bytes> {
    (data: Bytes) => put(|data|) + data
  }

  /** A list behind its length. */
  function List<T>(put: Encoder<int>, enc: Encoder<T>): Encoder<seq<T>> {
    (xs: seq<T>) => put(|xs|) + Each(enc, xs)
  }

  const Short := (data: Bytes) => |data| < TWO_64

  function ShortList<T>(ok: T -> bool): seq<T> -> bool {
    (xs: seq<T>) => |xs| < TWO_64 && AllOk(ok, xs)
  }

  lemma ChunkIsPrefixFree(put: Encoder<int>)
    requires FixedWidth(put)
    ensures PrefixFree(Chunk(put), Short)
  {
    var enc := Chunk(put);
    forall a: Bytes, b: Bytes, x: Bytes, y: Bytes | Short(a) && Short(b) && enc(a) + x == enc(b) + y
      ensures a == b && x == y
    {
      ChunkCuts(put, a, b, x, y);
    }
  }

  lemma ChunkCuts(put: Encoder<int>, a: Bytes, b: Bytes, x: Bytes, y: Bytes)
    requires FixedWidth(put) && |a| < TWO_64 && |b| < TWO_64 && (put(|a|) + a) + x == (put(|b|) + b) + y
    ensures a == b && x == y
  {
    Regroup(put(|a|), a, x);
    Regroup(put(|b|), b, y);
    CountCuts(put, |a|, |b|, a + x, b + y);
    HeadsAgree(a, b, x, y);
  }

  lemma HeadsAgree(a: Bytes, b: Bytes, x: Bytes, y: Bytes)
    requires |a| == |b| && a + x == b + y
    ensures a == b && x == y
  {
    assert a == (a + x)[..|a|] == (b + y)[..|a|] == b;
    assert x == (a + x)[|a|..] == (b + y)[|a|..] == y;
  }

  lemma ListIsPrefixFree<T(!new)>(put: Encoder<int>, enc: Encoder<T>, ok: T -> bool)
    requires FixedWidth(put) && PrefixFree(enc, ok)
    ensures PrefixFree(List(put, enc), ShortList(ok))
  {
    var list, short := List(put, enc), ShortList(ok);
    forall a: seq<T>, b: seq<T>, x: Bytes, y: Bytes | short(a) && short(b) && list(a) + x == list(b) + y
      ensures a == b && x == y
    {
      assert list(a) + x == put(|a|) + (Each(enc, a) + x);
      assert list(b) + y == put(|b|) + (Each(enc, b) + y);
      CountCuts(put, |a|, |b|, Each(enc, a) + x, Each(enc, b) + y);
      EachCuts(enc, ok, a, b, x, y);
    }
  }

  /** The loop that writes a list to the running hash. */
  method WriteEach<T>(enc: Encoder<T>, h0: Bytes, xs: seq<T>) returns (h: Bytes)
    ensures h == h0 + Each(enc, xs)
  {
    h := h0;
    assert xs[0..] == xs;
    for i := 0 to |xs|
      invariant h + Each(enc, xs[i..]) == h0 + Each(enc, xs)
    {
      assert xs[i..][1..] == xs[i + 1..];
      h := h + enc(xs[i]);
      assert h + Each(enc, xs[i + 1..]) == h0 + Each(enc, xs);
    }
  }

  // ---- CatalogContentsDigest ---------------------------------------------

  /** One grouped schema as bytes; `kinds` are the eight item lists in wire
      order (tables, views, scalar, aggregate and table functions, scalar and
      table macros, indexes). */
  datatype Contents = Contents(path: seq<Bytes>, schema: Bytes, kinds: seq<seq<Bytes>>)

  function Chunks(put: Encoder<int>): Encoder<seq<Bytes>> {
    List(put, Chunk(put))
  }

  const ShortChunks := ShortList(Short)

  const Hashable := (s: Contents) =>
    ShortChunks(s.path) && Short(s.schema) && |s.kinds| == 8 && AllOk(ShortChunks, s.kinds)

  function SchemaOf(chunk: Encoder<Bytes>, chunks: Encoder<seq<Bytes>>): Encoder<Contents> {
    (s: Contents) => chunks(s.path) + (chunk(s.schema) + Each(chunks, s.kinds))
  }

  function SchemaInput(put: Encoder<int>): Encoder<Contents> {
    SchemaOf(Chunk(put), Chunks(put))
  }

  function ContentsInput(put: Encoder<int>): Encoder<seq<Contents>> {
    List(put, SchemaInput(put))
  }

  lemma SchemaTailCuts(chunk: Encoder<Bytes>, chunks: Encoder<seq<Bytes>>, a: Contents, b: Contents, x: Bytes, y: Bytes)
    requires PrefixFree(chunk, Short) && PrefixFree(chunks, ShortChunks)
    requires Hashable(a) && Hashable(b)
    requires chunk(a.schema) + (Each(chunks, a.kinds) + x) == chunk(b.schema) + (Each(chunks, b.kinds) + y)
    ensures a.schema == b.schema && a.kinds == b.kinds && x == y
  {
    Cut(chunk, Short, a.schema, b.schema, Each(chunks, a.kinds) + x, Each(chunks, b.kinds) + y);
    EachCuts(chunks, ShortChunks, a.kinds, b.kinds, x, y);
  }

  lemma SchemaCuts(chunk: Encoder<Bytes>, chunks: Encoder<seq<Bytes>>, a: Contents, b: Contents, x: Bytes, y: Bytes)
    requires PrefixFree(chunk, Short) && PrefixFree(chunks, ShortChunks)
    requires Hashable(a) && Hashable(b)
    requires SchemaOf(chunk, chunks)(a) + x == SchemaOf(chunk, chunks)(b) + y
    ensures a == b && x == y
  {
    var ka, kb := Each(chunks, a.kinds), Each(chunks, b.kinds);
    Regroup(chunks(a.path), chunk(a.schema) + ka, x);
    Regroup(chunk(a.schema), ka, x);
    Regroup(chunks(b.path), chunk(b.schema) + kb, y);
    Regroup(chunk(b.schema), kb, y);
    var ta, tb := chunk(a.schema) + (Each(chunks, a.kinds) + x), chunk(b.schema) + (Each(chunks, b.kinds) + y);
    Cut(chunks, ShortChunks, a.path, b.path, ta, tb);
    SchemaTailCuts(chunk, chunks, a, b, x, y);
  }

  lemma SchemaIsPrefixFree(put: Encoder<int>)
    requires FixedWidth(put)
    ensures PrefixFree(SchemaInput(put), Hashable)
  {
    ChunkIsPrefixFree(put);
    ListIsPrefixFree(put, Chunk(put), Short);
    var enc := SchemaInput(put);
    forall a: Contents, b: Contents, x: Bytes, y: Bytes | Hashable(a) && Hashable(b) && enc(a) + x == enc(b) + y
      ensures a == b && x == y
    {
      SchemaCuts(Chunk(put), Chunks(put), a, b, x, y);
    }
  }

  /** Two snapshots are hashed from the same bytes only if they are the same
      snapshot, for all lengths below 2^64. */
  lemma ContentsInputIsInjective(put: Encoder<int>, a: seq<Contents>, b: seq<Contents>)
    requires FixedWidth(put)
    requires ShortList(Hashable)(a) && ShortList(Hashable)(b)
    ensures ContentsInput(put)(a) == ContentsInput(put)(b) <==> a == b
  {
    SchemaIsPrefixFree(put);
    ListIsPrefixFree(put, SchemaInput(put), Hashable);
    var enc := ContentsInput(put);
    if enc(a) == enc(b) {
      assert enc(a) + [] == enc(b) + [];
      Cut(enc, ShortList(Hashable), a, b, [], []);
    }
  }

  method WriteKinds(put: Encoder<int>, h0: Bytes, kinds: seq<seq<Bytes>>) returns (h: Bytes)
    ensures h == h0 + Each(Chunks(put), kinds)
  {
    h := h0;
    assert kinds[0..] == kinds;
    for k := 0 to |kinds|
      invariant h + Each(Chunks(put), kinds[k..]) == h0 + Each(Chunks(put), kinds)
    {
      assert kinds[k..][1..] == kinds[k + 1..];
      ghost var before := h;
      h := WriteEach(Chunk(put), h + put(|kinds[k]|), kinds[k]);
      assert h == before + Chunks(put)(kinds[k]);
      assert h + Each(Chunks(put), kinds[k + 1..]) == before + Each(Chunks(put), kinds[k..]);
    }
  }

  method WriteSchema(put: Encoder<int>, h0: Bytes, s: Contents) returns (h: Bytes)
    ensures h == h0 + SchemaInput(put)(s)
  {
    h := WriteEach(Chunk(put), h0 + put(|s.path|), s.path);
    assert h == h0 + Chunks(put)(s.path);
    h := WriteKinds(put, h + Chunk(put)(s.schema), s.kinds);
  }

  /** vgi/catalog_contents.go, `CatalogContentsDigest`, up to the hash: the
      bytes written to the running hash, in order. */
  method WriteContents(put: Encoder<int>, schemas: seq<Contents>) returns (h: Bytes)
    ensures h == ContentsInput(put)(schemas)
  {
    h := put(|schemas|);
    assert schemas[0..] == schemas;
    for i := 0 to |schemas|
      invariant h + Each(SchemaInput(put), schemas[i..]) == ContentsInput(put)(schemas)
    {
      assert schemas[i..][1..] == schemas[i + 1..];
      ghost var before := h;
      h := WriteSchema(put, h, schemas[i]);
      assert h + Each(SchemaInput(put), schemas[i + 1..]) == before + Each(SchemaInput(put), schemas[i..]);
    }
  }

  // ---- CatalogStreamsDigest ----------------------------------------------

  /** The ASCII bytes of "vgi.catalog-contents.2.2". */
  function Domain(): Bytes {
    [118, 103, 105, 46, 99, 97, 116, 97, 108, 111, 103, 45, 99, 111, 110, 116, 101, 110, 116, 115, 46, 50, 46, 50]
  }

  function Optional(put: Encoder<int>): Encoder<Option<Bytes>> {
    (stream: Option<Bytes>) => OptionalWith(put, Chunk(put), stream)
  }

  const ShortOptional := (stream: Option<Bytes>) => stream.Some? ==> Short(stream.value)

  function StreamsLayout(put: Encoder<int>, chunk: Encoder<Bytes>, optional: Encoder<Option<Bytes>>,
                         domain: Bytes, version: int, streams: seq<Option<Bytes>>): Bytes {
    chunk(domain) + (put(version) + Each(optional, streams))
  }

  function StreamsInput(put: Encoder<int>, domain: Bytes, version: int, streams: seq<Option<Bytes>>): Bytes {
    StreamsLayout(put, Chunk(put), Optional(put), domain, version, streams)
  }

  function OptionalWith(put: Encoder<int>, chunk: Encoder<Bytes>, stream: Option<Bytes>): Bytes {
    match stream
    case None => put(0)
    case Some(data) => put(1) + chunk(data)
  }

  lemma OptionalCuts(put: Encoder<int>, chunk: Encoder<Bytes>, a: Option<Bytes>, b: Option<Bytes>, x: Bytes, y: Bytes)
    requires FixedWidth(put) && PrefixFree(chunk, Short) && ShortOptional(a) && ShortOptional(b)
    requires OptionalWith(put, chunk, a) + x == OptionalWith(put, chunk, b) + y
    ensures a == b && x == y
  {
    var na, nb := if a.Some? then 1 else 0, if b.Some? then 1 else 0;
    var ta := if a.Some? then chunk(a.value) + x else x;
    var tb := if b.Some? then chunk(b.value) + y else y;
    assert OptionalWith(put, chunk, a) + x == put(na) + ta;
    assert OptionalWith(put, chunk, b) + y == put(nb) + tb;
    CountCuts(put, na, nb, ta, tb);
    if a.Some? {
      Cut(chunk, Short, a.value, b.value, x, y);
    }
  }

  lemma OptionalIsPrefixFree(put: Encoder<int>)
    requires FixedWidth(put)
    ensures PrefixFree(Optional(put), ShortOptional)
  {
    ChunkIsPrefixFree(put);
    var enc := Optional(put);
    forall a: Option<Bytes>, b: Option<Bytes>, x: Bytes, y: Bytes |
      ShortOptional(a) && ShortOptional(b) && enc(a) + x == enc(b) + y
      ensures a == b && x == y
    {
      OptionalCuts(put, Chunk(put), a, b, x, y);
    }
  }

  lemma StreamsCut(put: Encoder<int>, chunk: Encoder<Bytes>, optional: Encoder<Option<Bytes>>,
                   domain: Bytes, v: int, a: seq<Option<Bytes>>, w: int, b: seq<Option<Bytes>>)
    requires FixedWidth(put) && PrefixFree(chunk, Short) && PrefixFree(optional, ShortOptional)
    requires Short(domain) && |a| == |b| && AllOk(ShortOptional, a) && AllOk(ShortOptional, b)
    requires StreamsLayout(put, chunk, optional, domain, v, a) == StreamsLayout(put, chunk, optional, domain, w, b)
    ensures v % TWO_64 == w % TWO_64 && a == b
  {
    var ea, eb := Each(optional, a), Each(optional, b);
    Cut(chunk, Short, domain, domain, put(v) + ea, put(w) + eb);
    CountCuts(put, v, w, ea, eb);
    assert ea + [] == eb + [];
    EachCuts(optional, ShortOptional, a, b, [], []);
  }

  /** Two responses are hashed from the same bytes only if their int64 versions
      and all six optional streams agree: an absent stream is not an empty
      one. */
  lemma StreamsInputIsInjective(put: Encoder<int>, domain: Bytes, v: int, a: seq<Option<Bytes>>, w: int,
                                b: seq<Option<Bytes>>)
    requires FixedWidth(put) && Short(domain)
    requires -TWO_63 <= v < TWO_63 && -TWO_63 <= w < TWO_63
    requires |a| == |b| == 6 && AllOk(ShortOptional, a) && AllOk(ShortOptional, b)
    ensures StreamsInput(put, domain, v, a) == StreamsInput(put, domain, w, b) <==> v == w && a == b
  {
    if StreamsInput(put, domain, v, a) == StreamsInput(put, domain, w, b) {
      ChunkIsPrefixFree(put);
      OptionalIsPrefixFree(put);
      StreamsCut(put, Chunk(put), Optional(put), domain, v, a, w, b);
    }
  }

  method WriteOptional(put: Encoder<int>, h0: Bytes, stream: Option<Bytes>) returns (h: Bytes)
    ensures h == h0 + Optional(put)(stream)
  {
    match stream {
      case None => h := h0 + put(0);
      case Some(data) => h := h0 + put(1) + Chunk(put)(data);
    }
  }

  method WriteOptionals(put: Encoder<int>, h0: Bytes, streams: seq<Option<Bytes>>) returns (h: Bytes)
    ensures h == h0 + Each(Optional(put), streams)
  {
    h := h0;
    assert streams[0..] == streams;
    for i := 0 to |streams|
      invariant h + Each(Optional(put), streams[i..]) == h0 + Each(Optional(put), streams)
    {
      assert streams[i..][1..] == streams[i + 1..];
      ghost var before := h;
      h := WriteOptional(put, h, streams[i]);
      assert h + Each(Optional(put), streams[i + 1..]) == before + Each(Optional(put), streams[i..]);
    }
  }

  /** vgi/catalog_contents.go, `CatalogStreamsDigest`, up to the hash. */
  method WriteStreams(version: int, streams: seq<Option<Bytes>>) returns (h: Bytes)
    ensures h == StreamsInput(PutUint64, Domain(), version, streams)
  {
    h := WriteOptionals(PutUint64, Chunk(PutUint64)(Domain()) + PutUint64(version), streams);
  }
}
