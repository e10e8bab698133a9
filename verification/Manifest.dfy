/** The Greybus manifest walker: a header, then tagged and sized descriptors up to the end; parsing
    records a cport for every CPORT descriptor, releasing walks the same way and removes them. */
module Manifest {
  import opened Common

  const HEADER: nat := 4

  const TYPE_INTERFACE: byte := 1
  const TYPE_STRING: byte := 2
  const TYPE_BUNDLE: byte := 3
  const TYPE_CPORT: byte := 4
  const TYPE_IDS: byte := 5

  datatype Cport = Cport(id: nat, protocol: byte)

  /** Round up to a multiple of four. */
  function Align(n: nat): (r: nat)
    ensures n <= r < n + 4 && r % 4 == 0
  {
    (n + 3) / 4 * 4
  }

  /** The size a descriptor of type `kind` must have at least; `length` is the byte after its header. */
  function Expected(kind: byte, length: byte): (n: nat)
    ensures n >= HEADER + 4
  {
    if kind == TYPE_STRING then Align(HEADER + 2 + length)
    else if kind == TYPE_IDS then HEADER + 8
    else HEADER + 4
  }

  /** identify_descriptor: the number of bytes the descriptor takes, 0 if it is rejected.  For a string the
      length byte is read before it is known to lie within the `size` bytes that are left. */
  function Identify(mem: seq<byte>, at: nat, size: nat): (n: nat)
    requires at + size < |mem|
    ensures n <= size && (n > 0 ==> n >= HEADER + 4 && n >= Expected(mem[at + 2], mem[at + 4]))
  {
    if size < HEADER then 0
    else
      var n := Le16(mem, at);
      var kind := mem[at + 2];
      if n > size || !(1 <= kind <= 5) || n < Expected(kind, mem[at + 4]) then 0 else n
  }

  /** The cport that a descriptor describes, if it is of that kind. */
  function CportAt(mem: seq<byte>, at: nat): seq<Cport>
    requires at + 8 <= |mem|
  {
    if mem[at + 2] == TYPE_CPORT then [Cport(Le16(mem, at + 4), mem[at + 7])] else []
  }

  /** What the walk over `size` bytes finds: whether it gets to the end, and the cports on the way. */
  datatype Found = Found(ok: bool, cports: seq<Cport>)

  function Walk(mem: seq<byte>, at: nat, size: nat): Found
    requires at + size < |mem|
    decreases size
  {
    if size == 0 then Found(true, [])
    else
      var n := Identify(mem, at, size);
      if n == 0 then Found(false, [])
      else
        var rest := Walk(mem, at + n, size - n);
        Found(rest.ok, CportAt(mem, at) + rest.cports)
  }

  predicate HeaderOk(mem: seq<byte>, size: nat)
    requires size < |mem|
  {
    size > HEADER && Le16(mem, 0) == size && mem[2] <= 0
  }

  /** manifest_parse. */
  function Parse(mem: seq<byte>, size: nat, cports: seq<Cport>): (bool, seq<Cport>)
    requires size < |mem|
  {
    if !HeaderOk(mem, size) then (false, cports)
    else
      var f := Walk(mem, HEADER, size - HEADER);
      (f.ok, cports + f.cports)
  }

  function Ids(cports: seq<Cport>): set<nat> {
    set c | c in cports :: c.id
  }

  /** free_cport, for every id in `ids`. */
  function Without(cports: seq<Cport>, ids: set<nat>): seq<Cport> {
    if cports == [] then []
    else (if cports[0].id in ids then [] else [cports[0]]) + Without(cports[1..], ids)
  }

  /** manifest_release.  It does not look at the header. */
  function Release(mem: seq<byte>, size: nat, cports: seq<Cport>): (bool, seq<Cport>)
    requires HEADER <= size < |mem|
  {
    var f := Walk(mem, HEADER, size - HEADER);
    (f.ok, Without(cports, Ids(f.cports)))
  }

  // ----- parse, then release -----

  lemma {:induction false} WithoutConcat(a: seq<Cport>, b: seq<Cport>, ids: set<nat>)
    ensures Without(a + b, ids) == Without(a, ids) + Without(b, ids)
    decreases |a|
  {
    if a == [] {
      assert a + b == b;
    } else {
      assert (a + b)[1..] == a[1..] + b;
      WithoutConcat(a[1..], b, ids);
    }
  }

  lemma {:induction false} WithoutAll(a: seq<Cport>, ids: set<nat>)
    requires Ids(a) <= ids
    ensures Without(a, ids) == []
    decreases |a|
  {
    if a != [] {
      assert a[0] in a && a[0].id in Ids(a);
      assert forall c :: c in a[1..] ==> c in a;
      WithoutAll(a[1..], ids);
    }
  }

  lemma {:induction false} WithoutLength(a: seq<Cport>, ids: set<nat>)
    ensures |Without(a, ids)| <= |a|
    ensures Without(a, ids) == a <==> Ids(a) !! ids
    decreases |a|
  {
    if a != [] {
      WithoutLength(a[1..], ids);
      assert a[0] in a && a[0].id in Ids(a);
      assert a == [a[0]] + a[1..];
      assert Ids(a) == {a[0].id} + Ids(a[1..]) by {
        assert forall c :: c in a <==> c == a[0] || c in a[1..];
      }
    }
  }

  /** Releasing after parsing, be it accepted, rejected on the way or rejected for its header, restores the
      list of cports exactly if the list had none of the ids in the manifest. */
  lemma ReleaseRestores(mem: seq<byte>, size: nat, cports: seq<Cport>)
    requires HEADER <= size < |mem|
    ensures Release(mem, size, Parse(mem, size, cports).1).1 == cports
            <==> Ids(cports) !! Ids(Walk(mem, HEADER, size - HEADER).cports)
  {
    var found := Walk(mem, HEADER, size - HEADER).cports;
    var ids := Ids(found);
    WithoutLength(cports, ids);
    if HeaderOk(mem, size) {
      WithoutConcat(cports, found, ids);
      WithoutAll(found, ids);
      assert Without(cports, ids) + [] == Without(cports, ids);
    }
  }

  // ----- the format -----

  /** What a descriptor says after its header, kind by kind. */
  datatype Body =
    | InterfaceBody(vendor: byte, product: byte, pad0: byte, pad1: byte)
    | StringBody(stringId: byte, chars: seq<byte>, padding: seq<byte>)
    | BundleBody(bundleId: byte, class_: byte, pad0: byte, pad1: byte)
    | CportBody(cportId: nat, bundle: byte, protocol: byte)
    | IdsBody(pid: seq<byte>, vid: seq<byte>)

  /** A descriptor as the format describes it; `extra` is what a newer version of the format may add. */
  datatype Descriptor = Descriptor(pad: byte, body: Body, extra: seq<byte>)

  function Kind(b: Body): byte {
    match b
    case InterfaceBody(_, _, _, _) => 1
    case StringBody(_, _, _) => 2
    case BundleBody(_, _, _, _) => 3
    case CportBody(_, _, _) => 4
    case IdsBody(_, _) => 5
  }

  /** A string has its length in one byte and is padded to a multiple of four. */
  predicate Fits(b: Body) {
    match b
    case StringBody(_, chars, padding) =>
      |chars| < 0x100 && |padding| < 4 && (2 + |chars| + |padding|) % 4 == 0
    case CportBody(id, _, _) => id < 0x1_0000
    case IdsBody(pid, vid) => |pid| == 4 && |vid| == 4
    case _ => true
  }

  function Bytes(b: Body): (s: seq<byte>)
    requires Fits(b)
  {
    match b
    case InterfaceBody(vendor, product, pad0, pad1) => [vendor, product, pad0, pad1]
    case StringBody(id, chars, padding) => [|chars|, id] + chars + padding
    case BundleBody(id, class_, pad0, pad1) => [id, class_, pad0, pad1]
    case CportBody(id, bundle, protocol) => [id % 0x100, id / 0x100, bundle, protocol]
    case IdsBody(pid, vid) => pid + vid
  }

  predicate WellFormed(d: Descriptor) {
    Fits(d.body) && 4 + |Bytes(d.body)| + |d.extra| < 0x1_0000
  }

  function Encode(d: Descriptor): seq<byte>
    requires WellFormed(d)
  {
    var n := 4 + |Bytes(d.body)| + |d.extra|;
    [n % 0x100, n / 0x100, Kind(d.body), d.pad] + Bytes(d.body) + d.extra
  }

  predicate AllWellFormed(ds: seq<Descriptor>) {
    forall i :: 0 <= i < |ds| ==> WellFormed(ds[i])
  }

  function EncodeAll(ds: seq<Descriptor>): seq<byte>
    requires AllWellFormed(ds)
  {
    if |ds| == 0 then [] else Encode(ds[0]) + EncodeAll(ds[1..])
  }

  function CportsIn(d: Descriptor): seq<Cport> {
    if d.body.CportBody? then [Cport(d.body.cportId, d.body.protocol)] else []
  }

  function CportsOf(ds: seq<Descriptor>): seq<Cport> {
    if |ds| == 0 then [] else CportsIn(ds[0]) + CportsOf(ds[1..])
  }

  /** What the bytes `m` after the header say, for a descriptor of type `kind`. */
  function BodyOf(m: seq<byte>, kind: byte): Body
    requires |m| >= 4 && HEADER + |m| == Expected(kind, m[0])
  {
    if kind == TYPE_STRING then StringBody(m[1], m[2..2 + m[0]], m[2 + m[0]..])
    else if kind == TYPE_INTERFACE then InterfaceBody(m[0], m[1], m[2], m[3])
    else if kind == TYPE_BUNDLE then BundleBody(m[0], m[1], m[2], m[3])
    else if kind == TYPE_IDS then IdsBody(m[..4], m[4..])
    else CportBody(Le16(m, 0), m[2], m[3])
  }

  /** The descriptor of `n` bytes at `at`. */
  function DescriptorAt(mem: seq<byte>, at: nat, n: nat): Descriptor
    requires at + 4 < |mem| && at + n <= |mem| && Expected(mem[at + 2], mem[at + 4]) <= n
  {
    var kind := mem[at + 2];
    var end := at + Expected(kind, mem[at + 4]);
    Descriptor(mem[at + 3], BodyOf(mem[at + HEADER..end], kind), mem[end..at + n])
  }

  lemma StringIsThere(m: seq<byte>)
    requires |m| >= 4 && HEADER + |m| == Expected(TYPE_STRING, m[0])
    ensures var b := BodyOf(m, TYPE_STRING);
            Fits(b) && Bytes(b) == m
  {
    assert m == [m[0], m[1]] + m[2..2 + m[0]] + m[2 + m[0]..];
  }

  lemma BodyIsThere(m: seq<byte>, kind: byte)
    requires |m| >= 4 && HEADER + |m| == Expected(kind, m[0]) && 1 <= kind <= 5
    ensures var b := BodyOf(m, kind); Fits(b) && Kind(b) == kind && Bytes(b) == m
  {
    if kind == TYPE_STRING {
      StringIsThere(m);
    } else if kind == TYPE_IDS {
      assert m == m[..4] + m[4..];
    } else {
      assert m == [m[0], m[1], m[2], m[3]];
    }
  }

  lemma BodyIsRead(b: Body)
    requires Fits(b)
    ensures var m := Bytes(b);
            |m| >= 4 && HEADER + |m| == Expected(Kind(b), m[0]) && BodyOf(m, Kind(b)) == b
  {
    var m := Bytes(b);
    if b.StringBody? {
      assert m[2..2 + |b.chars|] == b.chars && m[2 + |b.chars|..] == b.padding;
    } else if b.IdsBody? {
      assert m[..4] == b.pid && m[4..] == b.vid;
    }
  }

  /** What the walker takes as a descriptor is the encoding of a well-formed one. */
  lemma IdentifiedIsEncoded(mem: seq<byte>, at: nat, size: nat)
    requires at + size < |mem| && Identify(mem, at, size) > 0
    ensures var n := Identify(mem, at, size);
            var d := DescriptorAt(mem, at, n);
            WellFormed(d) && Encode(d) == mem[at..at + n] && CportsIn(d) == CportAt(mem, at)
  {
    hide Fits, Bytes, Expected;
    var n := Identify(mem, at, size);
    var end := Expected(mem[at + 2], mem[at + 4]);
    BodyIsThere(mem[at + HEADER..at + end], mem[at + 2]);
    assert (n % 0x100) == mem[at] as int && (n / 0x100) == mem[at + 1] as int;
    assert mem[at..at + n] == [mem[at], mem[at + 1], mem[at + 2], mem[at + 3]]
                              + mem[at + HEADER..at + end] + mem[at + end..at + n];
  }

  lemma EncodedParts(d: Descriptor)
    requires WellFormed(d)
    ensures var e := Encode(d); var end := 4 + |Bytes(d.body)|;
            && |e| == end + |d.extra| && Le16(e, 0) == |e| && e[2] == Kind(d.body) && e[3] == d.pad
            && e[4..end] == Bytes(d.body) && e[end..] == d.extra
  {
    hide Fits, Bytes, Kind;
  }

  /** Where `e` is in memory, so are its bytes and parts. */
  lemma InMemory(mem: seq<byte>, at: nat, e: seq<byte>, k: nat)
    requires at + |e| <= |mem| && mem[at..at + |e|] == e && 4 <= k <= |e|
    ensures Le16(mem, at) == Le16(e, 0) && mem[at + 2] == e[2] && mem[at + 3] == e[3]
    ensures mem[at + 4..at + k] == e[4..k] && mem[at + k..at + |e|] == e[k..]
    ensures k > 4 ==> mem[at + 4] == e[4]
  {
    forall i | 0 <= i < |e| ensures mem[at + i] == e[i] {
      assert mem[at..at + |e|][i] == e[i];
    }
    assert mem[at + 0] == e[0] && mem[at + 1] == e[1];
  }

  /** An encoded well-formed descriptor is taken as such. */
  lemma EncodedIsIdentified(mem: seq<byte>, at: nat, size: nat, d: Descriptor)
    requires at + size < |mem| && WellFormed(d) && |Encode(d)| <= size
    requires mem[at..at + |Encode(d)|] == Encode(d)
    ensures Identify(mem, at, size) == |Encode(d)| > 0 && DescriptorAt(mem, at, |Encode(d)|) == d
  {
    hide Fits, Bytes, Expected, Encode, Le16, BodyOf;
    EncodedParts(d);
    BodyIsRead(d.body);
    InMemory(mem, at, Encode(d), 4 + |Bytes(d.body)|);
    assert Bytes(d.body)[0] == Encode(d)[4];
    KindInRange(d.body);
  }

  lemma KindInRange(b: Body)
    ensures 1 <= Kind(b) <= 5
  {
  }

  lemma EncodedSize(d: Descriptor)
    requires WellFormed(d)
    ensures |Encode(d)| >= 8
  {
  }

  /** The size of a descriptor that is taken, kind by kind: nothing smaller is, and nothing greater is refused. */
  lemma AcceptedSize(mem: seq<byte>, at: nat, size: nat)
    requires at + size < |mem| && size >= 4
    ensures var n := mem[at] as int + 0x100 * mem[at + 1] as int;
            Identify(mem, at, size) == n > 0
            <==>
            n <= size && match mem[at + 2] {
              case 1 => n >= 8
              case 2 => n - n % 4 >= 6 + mem[at + 4] as int
              case 3 => n >= 8
              case 4 => n >= 8
              case 5 => n >= 12
              case _ => false
            }
  {
  }

  /** The descriptors that the walk goes over before it ends. */
  function Decode(mem: seq<byte>, at: nat, size: nat): seq<Descriptor>
    requires at + size < |mem|
    decreases size
  {
    if size == 0 then []
    else
      var n := Identify(mem, at, size);
      if n == 0 then [] else [DescriptorAt(mem, at, n)] + Decode(mem, at + n, size - n)
  }

  /** The descriptors walked over are well formed and are what the bytes encode, all of them if the walk gets
      to the end; the cports found are theirs, in order. */
  lemma {:induction false} WalkDecodes(mem: seq<byte>, at: nat, size: nat)
    requires at + size < |mem|
    ensures var ds := Decode(mem, at, size);
            && AllWellFormed(ds) && EncodeAll(ds) <= mem[at..at + size]
            && CportsOf(ds) == Walk(mem, at, size).cports
            && (Walk(mem, at, size).ok <==> EncodeAll(ds) == mem[at..at + size])
    decreases size
  {
    hide Identify, DescriptorAt, Encode, CportAt, CportsIn, WellFormed, Expected;
    var n := Identify(mem, at, size);
    if size > 0 && n > 0 {
      var d := DescriptorAt(mem, at, n);
      IdentifiedIsEncoded(mem, at, size);
      WalkDecodes(mem, at + n, size - n);
      var rest := Decode(mem, at + n, size - n);
      var ds := Decode(mem, at, size);
      assert ds[1..] == rest;
      assert mem[at..at + size] == mem[at..at + n] + mem[at + n..at + size];
      assert mem[at..at + size][n..] == mem[at + n..at + size];
      assert EncodeAll(ds)[n..] == EncodeAll(rest);
    }
  }

  lemma PrefixRest(a: seq<byte>, b: seq<byte>, s: seq<byte>)
    requires |a| <= |s|
    ensures a + b <= s ==> b <= s[|a|..]
  {
    assert (a + b)[|a|..] == b;
  }

  /** Where the walk gives up, no descriptor starts. */
  lemma {:induction false} StopsAtNoDescriptor(mem: seq<byte>, at: nat, size: nat, d: Descriptor)
    requires at + size < |mem| && WellFormed(d)
    ensures AllWellFormed(Decode(mem, at, size))
    ensures !(EncodeAll(Decode(mem, at, size)) + Encode(d) <= mem[at..at + size])
    decreases size
  {
    hide Identify, DescriptorAt, Encode, CportAt, WellFormed, Expected, Walk, CportsOf;
    var n := Identify(mem, at, size);
    var ds := Decode(mem, at, size);
    var all := mem[at..at + size];
    EncodedSize(d);
    WalkDecodes(mem, at, size);
    if size > 0 && n > 0 {
      StopsAtNoDescriptor(mem, at + n, size - n, d);
      IdentifiedIsEncoded(mem, at, size);
      var rest := Decode(mem, at + n, size - n);
      assert ds[1..] == rest;
      assert EncodeAll(ds) + Encode(d) == Encode(ds[0]) + (EncodeAll(rest) + Encode(d));
      assert all[n..] == mem[at + n..at + size];
      PrefixRest(Encode(ds[0]), EncodeAll(rest) + Encode(d), all);
    } else if [] + Encode(d) <= all {
      assert [] + Encode(d) == Encode(d) == all[..|Encode(d)|] == mem[at..at + |Encode(d)|];
      EncodedIsIdentified(mem, at, size, d);
    }
  }

  /** An encoded list of well-formed descriptors is walked to the end, and decoded to that list. */
  lemma {:induction false} EncodedIsWalked(mem: seq<byte>, at: nat, size: nat, ds: seq<Descriptor>)
    requires at + size < |mem| && AllWellFormed(ds) && EncodeAll(ds) == mem[at..at + size]
    ensures Walk(mem, at, size).ok && Decode(mem, at, size) == ds
    decreases |ds|
  {
    hide Identify, DescriptorAt, CportAt, WellFormed, Encode, Expected;
    if ds != [] {
      var e := Encode(ds[0]);
      var s := mem[at..at + size];
      assert s == e + EncodeAll(ds[1..]);
      assert mem[at..at + |e|] == s[..|e|];
      EncodedIsIdentified(mem, at, size, ds[0]);
      assert mem[at + |e|..at + size] == s[|e|..];
      EncodedIsWalked(mem, at + |e|, size - |e|, ds[1..]);
    }
  }

  function EncodeManifest(ds: seq<Descriptor>, minor: byte): seq<byte>
    requires AllWellFormed(ds) && 4 + |EncodeAll(ds)| < 0x1_0000
  {
    var n := 4 + |EncodeAll(ds)|;
    [n % 0x100, n / 0x100, 0, minor] + EncodeAll(ds)
  }

  ghost predicate Encodes(ds: seq<Descriptor>, minor: byte, m: seq<byte>) {
    AllWellFormed(ds) && ds != [] && 4 + |EncodeAll(ds)| < 0x1_0000 && EncodeManifest(ds, minor) == m
  }

  /** manifest_parse accepts exactly the encodings of the non-empty lists of well-formed descriptors. */
  lemma AcceptsIffTiled(mem: seq<byte>, size: nat, cports: seq<Cport>)
    requires size < |mem|
    ensures Parse(mem, size, cports).0 <==> exists ds, minor :: Encodes(ds, minor, mem[..size])
  {
    hide Walk, Decode, AllWellFormed, EncodeAll;
    if Parse(mem, size, cports).0 {
      WalkDecodes(mem, HEADER, size - HEADER);
      var ds := Decode(mem, HEADER, size - HEADER);
      SomeDescriptor(ds);
      assert mem[0] == size % 0x100 && mem[1] == size / 0x100;
      assert mem[..size] == [mem[0], mem[1], mem[2], mem[3]] + mem[HEADER..size];
      assert Encodes(ds, mem[3], mem[..size]);
    }
    forall ds, minor | Encodes(ds, minor, mem[..size]) ensures Parse(mem, size, cports).0 {
      EncodedIsParsed(mem, size, ds, minor, cports);
    }
  }

  lemma SomeDescriptor(ds: seq<Descriptor>)
    requires AllWellFormed(ds)
    ensures ds == [] <==> |EncodeAll(ds)| == 0
    ensures ds != [] ==> |EncodeAll(ds)| >= 8
  {
    hide WellFormed, Encode;
    if ds != [] {
      EncodedSize(ds[0]);
    }
  }

  /** What is encoded is decoded, and its cports are added in order. */
  lemma EncodedIsParsed(mem: seq<byte>, size: nat, ds: seq<Descriptor>, minor: byte, cports: seq<Cport>)
    requires size < |mem| && Encodes(ds, minor, mem[..size])
    ensures size >= 12 && Walk(mem, HEADER, size - HEADER) == Found(true, CportsOf(ds))
    ensures Parse(mem, size, cports) == (true, cports + CportsOf(ds))
    ensures Decode(mem, HEADER, size - HEADER) == ds
  {
    hide Walk, Decode, EncodeAll, CportsOf, AllWellFormed;
    var e := mem[..size];
    SomeDescriptor(ds);
    assert mem[HEADER..size] == e[HEADER..] == EncodeAll(ds);
    EncodedIsWalked(mem, HEADER, size - HEADER, ds);
    WalkDecodes(mem, HEADER, size - HEADER);
    assert mem[0] == e[0] && mem[1] == e[1] && mem[2] == e[2];
  }

  /** Any non-empty list of descriptors survives being encoded and parsed: it is accepted, whatever follows it in
      memory, and its cports are added in order; releasing it leaves none of its ids. */
  lemma RoundTrip(ds: seq<Descriptor>, minor: byte, after: seq<byte>, cports: seq<Cport>)
    requires ds != [] && AllWellFormed(ds) && 4 + |EncodeAll(ds)| < 0x1_0000 && after != []
    ensures var e := EncodeManifest(ds, minor);
            && |e| >= HEADER
            && Parse(e + after, |e|, cports) == (true, cports + CportsOf(ds))
            && Decode(e + after, HEADER, |e| - HEADER) == ds
            && Release(e + after, |e|, cports) == (true, Without(cports, Ids(CportsOf(ds))))
  {
    hide Walk, Decode, CportsOf, EncodeAll, AllWellFormed;
    var e := EncodeManifest(ds, minor);
    assert (e + after)[..|e|] == e;
    EncodedIsParsed(e + after, |e|, ds, minor, cports);
  }

  /** The verdict and the cports do not depend on what lies past the manifest. */
  lemma {:induction false} WalkStaysInside(a: seq<byte>, b: seq<byte>, at: nat, size: nat)
    requires at + size < |a| && at + size < |b| && a[..at + size] == b[..at + size]
    ensures Walk(a, at, size) == Walk(b, at, size)
    decreases size
  {
    hide CportAt, Identify, Le16;
    if size > 0 {
      IdentifyStaysInside(a, b, at, size);
      var n := Identify(a, at, size);
      if n > 0 {
        WalkStaysInside(a, b, at + n, size - n);
        CportStaysInside(a, b, at, at + size);
      }
    }
  }

  lemma CportStaysInside(a: seq<byte>, b: seq<byte>, at: nat, end: nat)
    requires at + 8 <= end <= |a| && end <= |b| && a[..end] == b[..end]
    ensures CportAt(a, at) == CportAt(b, at)
  {
    forall i | 0 <= i < end ensures a[i] == b[i] { assert a[..end][i] == b[..end][i]; }
  }

  lemma IdentifyStaysInside(a: seq<byte>, b: seq<byte>, at: nat, size: nat)
    requires at + size < |a| && at + size < |b| && a[..at + size] == b[..at + size]
    ensures Identify(a, at, size) == Identify(b, at, size)
  {
    var end := at + size;
    forall i | 0 <= i < end ensures a[i] == b[i] { assert a[..end][i] == b[..end][i]; }
  }

  /** So what parsing and releasing do is a function of the `size` bytes of the manifest. */
  lemma ManifestStaysInside(a: seq<byte>, b: seq<byte>, size: nat, cports: seq<Cport>)
    requires size < |a| && size < |b| && a[..size] == b[..size]
    ensures Parse(a, size, cports) == Parse(b, size, cports)
    ensures size >= HEADER ==> Release(a, size, cports) == Release(b, size, cports)
  {
    forall i | 0 <= i < size ensures a[i] == b[i] { assert a[..size][i] == b[..size][i]; }
    if size >= HEADER {
      WalkStaysInside(a, b, HEADER, size - HEADER);
    }
  }

  // ----- the list of cports, changed in place -----

  lemma {:induction false} WithoutTwice(cports: seq<Cport>, first: set<nat>, second: set<nat>)
    ensures Without(Without(cports, first), second) == Without(cports, first + second)
    decreases |cports|
  {
    if cports != [] {
      WithoutTwice(cports[1..], first, second);
      if cports[0].id !in first {
        var rest := Without(cports, first);
        assert rest[1..] == Without(cports[1..], first);
      } else {
        assert Without(cports, first) == Without(cports[1..], first);
      }
    }
  }

  /** What releasing does with the cport of one descriptor, and then with those of the rest. */
  lemma ReleaseStep(cports: seq<Cport>, c: Cport, rest: seq<Cport>)
    ensures Without(Without(cports, {c.id}), Ids(rest)) == Without(cports, Ids([c] + rest))
  {
    WithoutTwice(cports, {c.id}, Ids(rest));
    assert Ids([c] + rest) == {c.id} + Ids(rest) by {
      assert forall d :: d in [c] + rest <==> d == c || d in rest;
    }
  }

  class Interface {
    var cports: seq<Cport>

    constructor ()
      ensures cports == []
    {
      cports := [];
    }

    method AllocCport(id: nat, protocol: byte)
      modifies this
      ensures cports == old(cports) + [Cport(id, protocol)]
    {
      cports := cports + [Cport(id, protocol)];
    }

    method FreeCport(id: nat)
      modifies this
      ensures cports == Without(old(cports), {id})
    {
      var i := 0;
      while i < |cports|
        invariant i <= |cports|
        invariant cports[..i] + Without(cports[i..], {id}) == Without(old(cports), {id})
        decreases |cports| - i
      {
        ghost var rest := cports[i..];
        if cports[i].id == id {
          cports := cports[..i] + cports[i + 1..];
          assert cports[i..] == rest[1..];
        } else {
          assert cports[..i + 1] == cports[..i] + [cports[i]];
          assert cports[i + 1..] == rest[1..];
          i := i + 1;
        }
      }
      assert cports[..i] + [] == cports;
    }

    /** identify_descriptor. */
    method IdentifyDescriptor(mem: seq<byte>, at: nat, size: nat, release: bool) returns (n: nat)
      requires at + size < |mem|
      modifies this
      ensures n == Identify(mem, at, size)
      ensures n > 0 ==> cports == if CportAt(mem, at) == [] then old(cports)
                                  else if release then Without(old(cports), {CportAt(mem, at)[0].id})
                                  else old(cports) + CportAt(mem, at)
      ensures n == 0 ==> cports == old(cports)
    {
      if size < HEADER {
        return 0;
      }
      n := Le16(mem, at);
      if n > size {
        return 0;
      }
      var expected := HEADER;
      var kind := mem[at + 2];
      if kind == TYPE_STRING {
        expected := Align(expected + 2 + mem[at + 4]);
      } else if kind == TYPE_INTERFACE || kind == TYPE_BUNDLE {
        expected := expected + 4;
      } else if kind == TYPE_CPORT {
        expected := expected + 4;
        if n >= expected {
          if release {
            FreeCport(Le16(mem, at + 4));
          } else {
            AllocCport(Le16(mem, at + 4), mem[at + 7]);
          }
        }
      } else if kind == TYPE_IDS {
        expected := expected + 8;
      } else {
        return 0;
      }
      if n < expected {
        return 0;
      }
    }

    /** _manifest_parse: the loop over the descriptors. */
    method Descriptors(mem: seq<byte>, size: nat, release: bool) returns (ok: bool)
      requires HEADER <= size < |mem|
      modifies this
      ensures release ==> (ok, cports) == Release(mem, size, old(cports))
      ensures !release ==> var f := Walk(mem, HEADER, size - HEADER); ok == f.ok && cports == old(cports) + f.cports
    {
      hide Without, Ids, Identify, CportAt, Expected, Align;
      var at := HEADER;
      var left := size - HEADER;
      ghost var whole := Walk(mem, HEADER, left);
      assert cports + whole.cports == old(cports) + whole.cports;
      while left > 0
        invariant at + left == size && 0 <= left
        invariant Walk(mem, at, left).ok == whole.ok
        invariant !release ==> cports + Walk(mem, at, left).cports == old(cports) + whole.cports
        invariant release ==> Without(cports, Ids(Walk(mem, at, left).cports))
                              == Without(old(cports), Ids(whole.cports))
      {
        ghost var before := cports;
        ghost var here := Walk(mem, at, left).cports;
        var n := IdentifyDescriptor(mem, at, left, release);
        if n == 0 {
          Nothing(cports);
          assert cports + [] == cports;
          return false;
        }
        ghost var rest := Walk(mem, at + n, left - n).cports;
        AtMostOne(mem, at);
        if CportAt(mem, at) == [] {
          assert here == rest;
        } else {
          assert here == [CportAt(mem, at)[0]] + rest;
          ReleaseStep(before, CportAt(mem, at)[0], rest);
          assert (before + CportAt(mem, at)) + rest == before + here;
        }
        at := at + n;
        left := left - n;
      }
      Nothing(cports);
      assert cports + [] == cports;
      return true;
    }

    /** manifest_parse. */
    method ParseManifest(mem: seq<byte>, size: nat) returns (ok: bool)
      requires size < |mem|
      modifies this
      ensures (ok, cports) == Parse(mem, size, old(cports))
    {
      if size <= HEADER {
        return false;
      }
      if Le16(mem, 0) != size {
        return false;
      }
      if mem[2] > 0 {
        return false;
      }
      ok := Descriptors(mem, size, false);
    }
  }

  lemma {:induction false} Nothing(cports: seq<Cport>)
    ensures Without(cports, Ids([])) == cports
    decreases |cports|
  {
    if cports != [] {
      Nothing(cports[1..]);
    }
  }

  lemma AtMostOne(mem: seq<byte>, at: nat)
    requires at + 8 <= |mem|
    ensures CportAt(mem, at) == [] || CportAt(mem, at) == [CportAt(mem, at)[0]]
  {
  }
}
