/** The first part of every message: its size, the kind of message, and the indices it is for. */
module HeaderCodec {
  import opened Events
  import opened Varints

  const MAX_ADDITIONAL: nat := 99
  /** The id of the run, the characters 0 to 7. */
  const CS_ID: Octets := [48, 49, 50, 51, 52, 53, 54, 55]

  /** An index is a number in the totally ordered mode and a hash in the causally ordered one. */
  datatype ConsID = IntID(n: nat) | HashID(hash: Octets)
  datatype Kind = IntKind | HashKind

  datatype Indices = Indices(first: ConsID, additional: seq<ConsID>)
  datatype Head = Head(indices: Option<Indices>, size: nat)

  ghost predicate IdOk(kind: Kind, c: ConsID) {
    if kind == IntKind then c.IntID? && c.n < U64 else c.HashID? && |c.hash| == 32
  }

  ghost predicate IndicesOk(kind: Kind, ix: Indices) {
    && IdOk(kind, ix.first) && |ix.additional| <= MAX_ADDITIONAL
    && forall i :: 0 <= i < |ix.additional| ==> IdOk(kind, ix.additional[i])
  }

  // ----- Fixed size integers, the lowest byte first -----

  function LE(v: nat, n: nat): (s: Octets)
    ensures |s| == n
  {
    if n == 0 then [] else [v % 256] + LE(v / 256, n - 1)
  }

  function FromLE(s: Octets): nat {
    if s == [] then 0 else s[0] + 256 * FromLE(s[1..])
  }

  function Pow256(n: nat): nat { if n == 0 then 1 else 256 * Pow256(n - 1) }

  lemma {:induction false} LERoundTrip(v: nat, n: nat)
    requires v < Pow256(n)
    ensures FromLE(LE(v, n)) == v
  {
    if n > 0 { LERoundTrip(v / 256, n - 1); }
  }

  /** The `i`-th byte holds the `i`-th eight bits. */
  lemma {:induction false} LEByPosition(v: nat, n: nat, i: nat)
    requires i < n
    ensures Pow256(i) > 0 && LE(v, n)[i] == (v / Pow256(i)) % 256
    decreases n
  {
    if i > 0 {
      LEByPosition(v / 256, n - 1, i - 1);
      DivideTwice(v, 256, Pow256(i - 1));
    }
  }

  lemma Sizes()
    ensures Pow256(4) == U32 && Pow256(8) == U64
  {
    assert Pow256(2) == 65536;
    assert Pow256(5) == 256 * U32;
    assert Pow256(6) == 65536 * U32;
    assert Pow256(7) == 16777216 * U32;
  }

  // ----- The form of a head, and reading it -----

  function IdForm(c: ConsID): Octets {
    if c.IntID? then LE(c.n, 8) else c.hash
  }

  function IdsForm(cs: seq<ConsID>): Octets {
    if cs == [] then [] else IdsForm(cs[..|cs| - 1]) + IdForm(cs[|cs| - 1])
  }

  function IndicesForm(ix: Indices): Octets {
    IdForm(ix.first) + Uvarint(|ix.additional|) + IdsForm(ix.additional)
  }

  function HeadForm(indices: Option<Indices>, id: nat, size: nat): Octets {
    LE(size, 4) + LE(id, 4) + if indices.Some? then IndicesForm(indices.value) + CS_ID else []
  }

  function ParseId(kind: Kind, s: Octets): (r: Decoded<ConsID>)
    ensures r.Ok? ==> r.count <= |s|
  {
    if kind == IntKind then if |s| < 8 then Err(NotEnoughBytes) else Ok(IntID(FromLE(s[..8])), 8)
    else if |s| < 32 then Err(NotEnoughBytes) else Ok(HashID(s[..32]), 32)
  }

  function ParseIds(kind: Kind, s: Octets, k: nat): (r: Decoded<seq<ConsID>>)
    ensures r.Ok? ==> r.count <= |s|
  {
    if k == 0 then Ok([], 0) else
    var init := ParseIds(kind, s, k - 1);
    if init.Err? then init else
    var last := ParseId(kind, s[init.count..]);
    if last.Err? then Err(last.error) else Ok(init.value + [last.value], init.count + last.count)
  }

  function ParseIndices(kind: Kind, s: Octets): (r: Decoded<Indices>)
    ensures r.Ok? ==> r.count <= |s|
  {
    var first := ParseId(kind, s);
    if first.Err? then Err(first.error) else
    var n := ParseUvarint(s[first.count..], 0);
    if n.Err? then Err(PeekedError(n.error))
    else if n.value > MAX_ADDITIONAL then Err(TooManyAdditionalIndices)
    else
      var ids := ParseIds(kind, s[first.count + n.count..], n.value);
      if ids.Err? then Err(ids.error) else Ok(Indices(first.value, ids.value), first.count + n.count + ids.count)
  }

  /** Without a kind no indices are expected, nor the id of the run. */
  function ParseHead(id: nat, kind: Option<Kind>, s: Octets): (r: Decoded<Head>)
    ensures r.Ok? ==> r.count <= |s|
  {
    if |s| < 8 then Err(NotEnoughBytes)
    else if FromLE(s[4..8]) != id then Err(WrongMessageType)
    else if kind.None? then Ok(Head(None, FromLE(s[..4])), 8)
    else
      var ix := ParseIndices(kind.value, s[8..]);
      if ix.Err? then Err(ix.error)
      else if |s| < 8 + ix.count + |CS_ID| then Err(NotEnoughBytes)
      else if s[8 + ix.count..8 + ix.count + |CS_ID|] != CS_ID then Err(WrongMessageType)
      else Ok(Head(Some(ix.value), FromLE(s[..4])), 8 + ix.count + |CS_ID|)
  }

  // ----- Looking ahead -----

  /** What looking ahead ends in. An error is turned into a panic, as is reading past the end. */
  datatype PeekOutcome = Peeked(indices: Indices) | OutOfBounds | Panics(error: Error)

  function PeekedError(e: Error): Error {
    if e == EndOfInput then NotEnoughBytes else e
  }

  /** The ids found one after the other from the offset `at` on. */
  function PeekIds(kind: Kind, buff: Octets, at: nat, k: nat): (r: Decoded<seq<ConsID>>)
    requires at <= |buff|
    ensures r.Ok? ==> at + r.count <= |buff|
    decreases k
  {
    if k == 0 then Ok([], 0) else
    var c := ParseId(kind, buff[at..]);
    if c.Err? then Err(c.error) else
    var rest := PeekIds(kind, buff, at + c.count, k - 1);
    if rest.Err? then rest else Ok([c.value] + rest.value, c.count + rest.count)
  }

  /** The indices of the message at the offset `at`, found by offsets; numbers have no additional indices. */
  function PeekHead(kind: Kind, buff: Octets, at: nat): PeekOutcome {
    if at + 8 > |buff| then OutOfBounds else
    var first := ParseId(kind, buff[at + 8..]);
    if first.Err? then Panics(first.error) else
    if at + 8 + first.count >= |buff| then Panics(NotEnoughBytes) else
    var n := ParseUvarint(buff[at + 8 + first.count..], 0);
    if n.Err? then Panics(PeekedError(n.error))
    else if n.value > MAX_ADDITIONAL then Panics(TooManyAdditionalIndices)
    else
      var ids := PeekIds(kind, buff, at + 8 + first.count + n.count, n.value);
      if ids.Err? then Panics(ids.error)
      else if kind == IntKind && ids.value != [] then Panics(TooManyAdditionalIndices)
      else Peeked(Indices(first.value, ids.value))
  }

  /** Parsing takes the last id off, looking ahead the first: both find the same. */
  lemma {:induction false} IdsFromFront(kind: Kind, s: Octets, k: nat)
    requires k > 0
    ensures ParseIds(kind, s, k) ==
      var c := ParseId(kind, s);
      if c.Err? then Err(c.error) else
      var rest := ParseIds(kind, s[c.count..], k - 1);
      if rest.Err? then rest else Ok([c.value] + rest.value, c.count + rest.count)
  {
    hide ParseId;
    assert s[0..] == s;
    if k == 1 {
      NoIds(kind, s);
      var c := ParseId(kind, s);
      if c.Ok? {
        NoIds(kind, s[c.count..]);
        assert [] + [c.value] == [c.value] + [];
      }
    } else {
      IdsFromFront(kind, s, k - 1);
      var c := ParseId(kind, s);
      if c.Ok? {
        var mid := ParseIds(kind, s[c.count..], k - 2);
        if mid.Ok? {
          assert s[c.count..][mid.count..] == s[c.count + mid.count..];
          var last := ParseId(kind, s[c.count + mid.count..]);
          if last.Ok? { assert ([c.value] + mid.value) + [last.value] == [c.value] + (mid.value + [last.value]); }
        }
      }
    }
  }

  lemma {:induction false} PeekIdsAreParsed(kind: Kind, buff: Octets, at: nat, k: nat)
    requires at <= |buff|
    ensures PeekIds(kind, buff, at, k) == ParseIds(kind, buff[at..], k)
    decreases k
  {
    hide ParseId, ParseIds, PeekIds;
    PeekUnfolds(kind, buff, at, k);
    if k == 0 {
      NoIds(kind, buff[at..]);
    } else {
      IdsFromFront(kind, buff[at..], k);
      var c := ParseId(kind, buff[at..]);
      if c.Ok? {
        assert buff[at..][c.count..] == buff[at + c.count..];
        PeekIdsAreParsed(kind, buff, at + c.count, k - 1);
      }
    }
  }

  lemma PeekUnfolds(kind: Kind, buff: Octets, at: nat, k: nat)
    requires at <= |buff|
    ensures k == 0 ==> PeekIds(kind, buff, at, k) == Ok([], 0)
    ensures k > 0 ==>
      var c := ParseId(kind, buff[at..]);
      if c.Err? then PeekIds(kind, buff, at, k) == Err(c.error)
      else
        var rest := PeekIds(kind, buff, at + c.count, k - 1);
        PeekIds(kind, buff, at, k) == if rest.Err? then rest else Ok([c.value] + rest.value, c.count + rest.count)
  {
    hide ParseId;
  }

  /** Exactly which bytes can be looked at: there are indices after the first eight bytes, and no
      additional ones if indices are numbers. */
  lemma PeekPanicsExactly(kind: Kind, buff: Octets, at: nat)
    ensures PeekHead(kind, buff, at) == OutOfBounds <==> |buff| < at + 8
    ensures |buff| >= at + 8 ==>
      var ix := ParseIndices(kind, buff[at + 8..]);
      PeekHead(kind, buff, at) ==
        if ix.Err? then Panics(ix.error)
        else if kind == IntKind && ix.value.additional != [] then Panics(TooManyAdditionalIndices)
        else Peeked(ix.value)
  {
    hide ParseId, ParseUvarint, ParseIds, PeekIds;
    if |buff| >= at + 8 {
      var s := buff[at + 8..];
      var first := ParseId(kind, s);
      if first.Ok? {
        assert s[first.count..] == buff[at + 8 + first.count..];
        NothingToRead();
        var n := ParseUvarint(s[first.count..], 0);
        if n.Ok? {
          assert s[first.count + n.count..] == buff[at + 8 + first.count + n.count..];
          PeekIdsAreParsed(kind, buff, at + 8 + first.count + n.count, n.value);
        }
      }
    }
  }

  lemma NothingToRead()
    ensures ParseUvarint([], 0) == Err(EndOfInput)
  {
  }

  // ----- Reading back what was written -----

  lemma IdRoundTrip(kind: Kind, c: ConsID, rest: Octets)
    requires IdOk(kind, c)
    ensures ParseId(kind, IdForm(c) + rest) == Ok(c, |IdForm(c)|)
  {
    hide LE, FromLE;
    if kind == IntKind {
      Sizes();
      LERoundTrip(c.n, 8);
    }
    assert (IdForm(c) + rest)[..|IdForm(c)|] == IdForm(c);
  }

  lemma {:induction false} IdsRoundTrip(kind: Kind, cs: seq<ConsID>, rest: Octets)
    requires forall i :: 0 <= i < |cs| ==> IdOk(kind, cs[i])
    ensures ParseIds(kind, IdsForm(cs) + rest, |cs|) == Ok(cs, |IdsForm(cs)|)
  {
    hide ParseId, IdForm, IdOk, ParseIds, IdsForm;
    if cs == [] {
      NoIds(kind, IdsForm(cs) + rest);
      NoIdForms();
    } else {
      var init, last := cs[..|cs| - 1], cs[|cs| - 1];
      var s := IdsForm(cs) + rest;
      IdFormsSplit(cs);
      assert s == IdsForm(init) + (IdForm(last) + rest);
      IdsRoundTrip(kind, init, IdForm(last) + rest);
      assert s[|IdsForm(init)|..] == IdForm(last) + rest;
      IdRoundTrip(kind, last, rest);
      NextId(kind, s, |init|, init, |IdsForm(init)|);
      assert init + [last] == cs;
    }
  }

  lemma NoIdForms()
    ensures IdsForm([]) == []
  {
  }

  lemma IdFormsSplit(cs: seq<ConsID>)
    requires cs != []
    ensures IdsForm(cs) == IdsForm(cs[..|cs| - 1]) + IdForm(cs[|cs| - 1])
  {
  }

  lemma IndicesRoundTrip(kind: Kind, ix: Indices, rest: Octets)
    requires IndicesOk(kind, ix)
    ensures ParseIndices(kind, IndicesForm(ix) + rest) == Ok(ix, |IndicesForm(ix)|)
  {
    hide ParseId, IdForm, IdOk, ParseIds, IdsForm, Uvarint, ParseUvarint;
    var a, b, c := IdForm(ix.first), Uvarint(|ix.additional|), IdsForm(ix.additional);
    var s := IndicesForm(ix) + rest;
    assert s == a + (b + c + rest);
    IdRoundTrip(kind, ix.first, b + c + rest);
    assert s[|a|..] == b + (c + rest);
    UvarintRoundTrip(|ix.additional|, c + rest);
    assert s[|a| + |b|..] == c + rest;
    IdsRoundTrip(kind, ix.additional, rest);
  }

  /** Reading back a head, whatever follows it, gives its indices and size, and its length. */
  lemma HeadRoundTrip(id: nat, size: nat, kind: Kind, ix: Option<Indices>, rest: Octets)
    requires id < U32 && size < U32 && (ix.Some? ==> IndicesOk(kind, ix.value))
    ensures ParseHead(id, if ix.Some? then Some(kind) else None, HeadForm(ix, id, size) + rest) == Ok(Head(ix, size), |HeadForm(ix, id, size)|)
  {
    hide LE, FromLE, IndicesOk, ParseIndices, IndicesForm;
    Sizes();
    LERoundTrip(id, 4);
    LERoundTrip(size, 4);
    var s := HeadForm(ix, id, size) + rest;
    assert s[..4] == LE(size, 4) && s[4..8] == LE(id, 4);
    if ix.Some? {
      var a := IndicesForm(ix.value);
      assert s[8..] == a + (CS_ID + rest);
      IndicesRoundTrip(kind, ix.value, CS_ID + rest);
      assert s[8 + |a|..8 + |a| + |CS_ID|] == CS_ID;
    }
  }

  function Width(kind: Kind): nat { if kind == IntKind then 8 else 32 }

  /** A head is its size in bytes 0 to 4, its id in bytes 4 to 8, then the indices, and the id of the run at
      the end. */
  lemma HeadLayout(id: nat, size: nat, kind: Kind, ix: Indices)
    requires id < U32 && size < U32 && IndicesOk(kind, ix)
    ensures
      var s, w, n := HeadForm(Some(ix), id, size), Width(kind), |ix.additional|;
      && |s| == 8 + w + |Uvarint(n)| + w * n + |CS_ID| && FromLE(s[..4]) == size && FromLE(s[4..8]) == id
      && s[8..] == IndicesForm(ix) + CS_ID && s[|s| - |CS_ID|..] == CS_ID
  {
    hide LE, FromLE, Uvarint, IdForm, IdsForm, IdOk;
    Sizes();
    LERoundTrip(id, 4);
    LERoundTrip(size, 4);
    var s := HeadForm(Some(ix), id, size);
    assert s[..4] == LE(size, 4) && s[4..8] == LE(id, 4);
    IdWidth(kind, ix.first);
    IdsWidth(kind, ix.additional);
  }

  /** The indices are the first one, the number of additional ones and these in order, each as wide as its kind. */
  lemma IndicesLayout(kind: Kind, ix: Indices, i: nat, rest: Octets)
    requires IndicesOk(kind, ix)
    ensures
      var s, w, n := IndicesForm(ix) + rest, Width(kind), |ix.additional|;
      var u := |Uvarint(n)|;
      && |s| >= w + u && ParseId(kind, s) == Ok(ix.first, w) && ParseUvarint(s[w..], 0) == Ok(n, u)
      && (i < n ==> 0 <= w + u + w * i <= |s| && ParseId(kind, s[w + u + w * i..]) == Ok(ix.additional[i], w))
  {
    hide IdForm, IdsForm, Uvarint, ParseUvarint, ParseId, IdOk, Width;
    var s, w, n := IndicesForm(ix) + rest, Width(kind), |ix.additional|;
    var a, u, ids := IdForm(ix.first), Uvarint(n), IdsForm(ix.additional);
    assert s == a + (u + ids + rest);
    IdRoundTrip(kind, ix.first, u + ids + rest);
    IdWidth(kind, ix.first);
    assert s[w..] == u + (ids + rest);
    UvarintRoundTrip(n, ids + rest);
    if i < n {
      IdAt(kind, ix.additional, i, rest);
      var o := w * i;
      assert s[w + |u| + o..] == (ids + rest)[o..];
    }
  }

  lemma IdWidth(kind: Kind, c: ConsID)
    requires IdOk(kind, c)
    ensures |IdForm(c)| == Width(kind)
  {
  }

  lemma {:induction false} IdsWidth(kind: Kind, cs: seq<ConsID>)
    requires forall i :: 0 <= i < |cs| ==> IdOk(kind, cs[i])
    ensures |IdsForm(cs)| == Width(kind) * |cs|
  {
    hide IdForm, IdOk;
    if cs != [] {
      IdsWidth(kind, cs[..|cs| - 1]);
      IdWidth(kind, cs[|cs| - 1]);
    }
  }

  lemma {:induction false} IdAt(kind: Kind, cs: seq<ConsID>, i: nat, rest: Octets)
    requires i < |cs| && forall j :: 0 <= j < |cs| ==> IdOk(kind, cs[j])
    ensures 0 <= Width(kind) * i <= Width(kind) * |cs| - Width(kind) && |IdsForm(cs)| == Width(kind) * |cs|
    ensures ParseId(kind, (IdsForm(cs) + rest)[Width(kind) * i..]) == Ok(cs[i], Width(kind))
  {
    hide IdForm, IdOk, ParseId, IdsForm;
    var init, last := cs[..|cs| - 1], cs[|cs| - 1];
    IdsWidth(kind, cs);
    IdsWidth(kind, init);
    IdWidth(kind, last);
    IdFormsSplit(cs);
    assert Width(kind) * |cs| == Width(kind) * |init| + Width(kind);
    assert IdsForm(cs) + rest == IdsForm(init) + (IdForm(last) + rest);
    if i < |init| {
      IdAt(kind, init, i, IdForm(last) + rest);
    } else {
      IdRoundTrip(kind, last, rest);
      assert (IdsForm(init) + (IdForm(last) + rest))[Width(kind) * i..] == IdForm(last) + rest;
    }
  }

  /** On any bytes that reading accepts as a head, looking ahead shows the indices that reading takes,
      except that it fails when a number comes with additional indices. */
  lemma PeekAgrees(id: nat, kind: Kind, buff: Octets, at: nat)
    requires at <= |buff| && ParseHead(id, Some(kind), buff[at..]).Ok?
    ensures ParseHead(id, Some(kind), buff[at..]).value.indices.Some?
    ensures var ix := ParseHead(id, Some(kind), buff[at..]).value.indices.value;
      PeekHead(kind, buff, at) == if kind == IntKind && ix.additional != [] then Panics(TooManyAdditionalIndices) else Peeked(ix)
  {
    hide ParseIndices, PeekHead, FromLE;
    assert buff[at..][8..] == buff[at + 8..];
    PeekPanicsExactly(kind, buff, at);
  }

  // ----- The message buffer -----

  class MsgBuffer {
    var buff: Octets
    var readOffset: nat
    var writeOffset: nat

    ghost predicate Valid()
      reads this
    {
      writeOffset == |buff| && readOffset <= |buff|
    }

    constructor (bytes: Octets)
      ensures Valid() && buff == bytes && readOffset == 0
    {
      buff, readOffset, writeOffset := bytes, 0, |bytes|;
    }

    ghost function Rest(): Octets
      reads this
      requires Valid()
    {
      buff[readOffset..]
    }

    method AddBytes(v: Octets) returns (n: nat, offset: nat)
      requires Valid()
      modifies this`buff, this`writeOffset
      ensures Valid() && buff == old(buff) + v && n == |v| && offset == |old(buff)|
    {
      offset := writeOffset;
      buff := buff + v;
      writeOffset := writeOffset + |v|;
      n := |v|;
    }

    /** Writes the head of a message; the size goes first and is filled in later. */
    method WriteHeaderHead(indices: Option<Indices>, id: nat, size: nat) returns (l: nat, sizeOffset: nat, offset: nat)
      requires Valid() && (indices.Some? ==> |indices.value.additional| <= MAX_ADDITIONAL)
      modifies this`buff, this`writeOffset
      ensures Valid() && buff == old(buff) + HeadForm(indices, id, size) && l == |HeadForm(indices, id, size)|
      ensures sizeOffset == |old(buff)| && offset == sizeOffset + 4
    {
      hide LE, IndicesForm;
      l, sizeOffset := AddBytes(LE(size, 4));
      var l1;
      l1, offset := AddBytes(LE(id, 4));
      l := l + l1;
      if indices.Some? {
        l1 := WriteIndices(indices.value);
        l := l + l1;
        var l2, _ := AddBytes(CS_ID);
        l := l + l2;
      }
      assert buff == old(buff) + HeadForm(indices, id, size);
    }

    method WriteIndices(ix: Indices) returns (l: nat)
      requires Valid()
      modifies this`buff, this`writeOffset
      ensures Valid() && buff == old(buff) + IndicesForm(ix) && l == |IndicesForm(ix)|
    {
      hide IdForm, Uvarint;
      var l0, _ := AddBytes(IdForm(ix.first));
      var l1, _ := AddBytes(Uvarint(|ix.additional|));
      l := l0 + l1;
      ghost var head := IdForm(ix.first) + Uvarint(|ix.additional|);
      assert buff == old(buff) + head;
      var i := 0;
      while i < |ix.additional|
        invariant 0 <= i <= |ix.additional| && Valid()
        invariant buff == old(buff) + head + IdsForm(ix.additional[..i]) && l == |head| + |IdsForm(ix.additional[..i])|
      {
        assert ix.additional[..i + 1][..i] == ix.additional[..i];
        var l2, _ := AddBytes(IdForm(ix.additional[i]));
        l := l + l2;
        i := i + 1;
      }
      assert ix.additional[..i] == ix.additional;
      assert buff == old(buff) + IndicesForm(ix);
    }

    method ReadUint32() returns (r: Decoded<nat>)
      requires Valid()
      modifies this`readOffset
      ensures Valid() && r == if |old(Rest())| < 4 then Err(NotEnoughBytes) else Ok(FromLE(old(Rest())[..4]), 4)
      ensures readOffset == old(readOffset) + if r.Ok? then 4 else 0
    {
      var offset := readOffset;
      readOffset := readOffset + 4;
      if |buff| < readOffset {
        readOffset := offset;
        return Err(NotEnoughBytes);
      }
      assert buff[offset..][..4] == buff[offset..readOffset];
      r := Ok(FromLE(buff[offset..readOffset]), 4);
    }

    method ReadUvarint() returns (r: Decoded<nat>)
      requires Valid()
      modifies this`readOffset
      ensures Valid()
      ensures var p := ParseUvarint(old(Rest()), 0); if p.Ok? then r == p else r == Err(PeekedError(p.error))
      ensures r.Ok? ==> readOffset == old(readOffset) + r.count
    {
      hide ParseUvarint;
      var reader := new Reader(buff[readOffset..]);
      assert reader.Rest() == Rest();
      r := reader.ReadUvarint();
      readOffset := readOffset + reader.pos;
      if r == Err(EndOfInput) {
        r := Err(NotEnoughBytes);
      }
    }

    method ReadConsensusID(kind: Kind) returns (r: Decoded<ConsID>)
      requires Valid()
      modifies this`readOffset
      ensures Valid() && r == ParseId(kind, old(Rest())) && readOffset == old(readOffset) + if r.Ok? then r.count else 0
    {
      r := ParseId(kind, buff[readOffset..]);
      if r.Ok? {
        readOffset := readOffset + r.count;
      }
    }

    method ReadIndices(kind: Kind) returns (r: Decoded<Indices>)
      requires Valid()
      modifies this`readOffset
      ensures Valid() && r == ParseIndices(kind, old(Rest()))
      ensures r.Ok? ==> readOffset == old(readOffset) + r.count
    {
      hide ParseId, ParseUvarint, ParseIds;
      ghost var s := Rest();
      var first := ReadConsensusID(kind);
      if first.Err? { return Err(first.error); }
      assert s[first.count..] == Rest();
      var count := ReadUvarint();
      if count.Err? { return Err(count.error); }
      assert s[first.count + count.count..] == Rest();
      if count.value > MAX_ADDITIONAL {
        return Err(TooManyAdditionalIndices);
      }
      var ids := ReadIds(kind, count.value);
      if ids.Err? { return Err(ids.error); }
      r := Ok(Indices(first.value, ids.value), first.count + count.count + ids.count);
    }

    method ReadIds(kind: Kind, k: nat) returns (r: Decoded<seq<ConsID>>)
      requires Valid()
      modifies this`readOffset
      ensures Valid() && r == ParseIds(kind, old(Rest()), k)
      ensures r.Ok? ==> readOffset == old(readOffset) + r.count
    {
      hide ParseId, ParseIds;
      ghost var t := Rest();
      var ids: seq<ConsID>, n: nat, i: nat := [], 0, 0;
      NoIds(kind, t);
      while i < k
        invariant 0 <= i <= k && Valid() && n <= |t| && readOffset == old(readOffset) + n
        invariant Rest() == t[n..] && ParseIds(kind, t, i) == Ok(ids, n)
      {
        NextId(kind, t, i, ids, n);
        var c := ReadConsensusID(kind);
        if c.Err? {
          FirstBadId(kind, t, i, k, c.error);
          return Err(c.error);
        }
        assert t[n..][c.count..] == t[n + c.count..];
        ids, n, i := ids + [c.value], n + c.count, i + 1;
      }
      r := Ok(ids, n);
    }

    method ReadHeaderHead(id: nat, kind: Option<Kind>) returns (r: Decoded<Head>, offset: nat)
      requires Valid()
      modifies this`readOffset
      ensures Valid() && r == ParseHead(id, kind, old(Rest()))
      ensures r.Ok? ==> readOffset == old(readOffset) + r.count && offset == old(readOffset) + 4
    {
      hide FromLE, ParseIndices;
      ghost var s := Rest();
      offset := readOffset;
      var size := ReadUint32();
      if size.Err? { r := Err(size.error); return; }
      offset := readOffset;
      assert Rest() == s[4..];
      var msgId := ReadUint32();
      if msgId.Err? { r := Err(msgId.error); return; }
      assert s[4..][..4] == s[4..8];
      if msgId.value != id { r := Err(WrongMessageType); return; }
      assert Rest() == s[8..];
      if kind.None? {
        r := Ok(Head(None, size.value), 8);
        return;
      }
      var ix := ReadIndices(kind.value);
      if ix.Err? { r := Err(ix.error); return; }
      assert Rest() == s[8 + ix.count..];
      if |buff| - readOffset < |CS_ID| { r := Err(NotEnoughBytes); return; }
      var csid := buff[readOffset..readOffset + |CS_ID|];
      readOffset := readOffset + |CS_ID|;
      assert csid == s[8 + ix.count..8 + ix.count + |CS_ID|];
      if csid != CS_ID { r := Err(WrongMessageType); return; }
      r := Ok(Head(Some(ix.value), size.value), 8 + ix.count + |CS_ID|);
    }

    /** The integer at `offset` past the read offset, which is moved there and back. */
    method PeekUvarintAt(offset: nat) returns (r: Decoded<nat>)
      requires Valid()
      modifies this`readOffset
      ensures Valid() && readOffset == old(readOffset)
      ensures readOffset + offset >= |buff| ==> r == Err(NotEnoughBytes)
      ensures readOffset + offset < |buff| ==>
        var p := ParseUvarint(buff[readOffset + offset..], 0); r == if p.Ok? then p else Err(PeekedError(p.error))
    {
      hide ParseUvarint;
      if readOffset + offset >= |buff| {
        return Err(NotEnoughBytes);
      }
      var start := readOffset;
      readOffset := readOffset + offset;
      r := ReadUvarint();
      readOffset := start;
    }

    /** The id at `offset` past the read offset; the slice must start inside the buffer. */
    method PeekConsIDAt(offset: nat, kind: Kind) returns (r: Decoded<ConsID>)
      requires Valid() && readOffset + offset <= |buff|
      ensures r == ParseId(kind, buff[readOffset + offset..])
    {
      r := ParseId(kind, buff[readOffset + offset..]);
    }

    /** Shows the indices of the message at the read offset, which stays where it is. */
    method PeekHeaderHead(kind: Kind) returns (r: PeekOutcome)
      requires Valid()
      modifies this`readOffset
      ensures Valid() && readOffset == old(readOffset) && r == PeekHead(kind, buff, readOffset)
    {
      hide ParseId, ParseUvarint, PeekIds;
      var offset := 8;
      if readOffset + offset > |buff| {
        return OutOfBounds;
      }
      var first := PeekConsIDAt(offset, kind);
      if first.Err? { return Panics(first.error); }
      offset := offset + first.count;
      var n := PeekUvarintAt(offset);
      if n.Err? { return Panics(n.error); }
      offset := offset + n.count;
      if n.value > MAX_ADDITIONAL {
        return Panics(TooManyAdditionalIndices);
      }
      var ids := PeekAdditional(offset, kind, n.value);
      if ids.Err? { return Panics(ids.error); }
      if kind == IntKind && ids.value != [] {
        return Panics(TooManyAdditionalIndices);
      }
      r := Peeked(Indices(first.value, ids.value));
    }

    method PeekAdditional(start: nat, kind: Kind, k: nat) returns (r: Decoded<seq<ConsID>>)
      requires Valid() && readOffset + start <= |buff|
      ensures r == PeekIds(kind, buff, readOffset + start, k)
    {
      hide ParseId, PeekIds;
      var offset, ids: seq<ConsID>, i := start, [], 0;
      PeekStarts(PeekIds(kind, buff, readOffset + start, k));
      while i < k
        invariant 0 <= i <= k && start <= offset && readOffset + offset <= |buff|
        invariant PeekIds(kind, buff, readOffset + start, k) == After(ids, offset - start, PeekIds(kind, buff, readOffset + offset, k - i))
      {
        PeekStep(kind, buff, readOffset + offset, k - i, ids, offset - start);
        var c := PeekConsIDAt(offset, kind);
        if c.Err? { return Err(c.error); }
        offset, ids, i := offset + c.count, ids + [c.value], i + 1;
      }
      PeekEnds(kind, buff, readOffset + offset, ids, offset - start);
      r := Ok(ids, offset - start);
    }
  }

  /** What was found so far, put before what is still to come. */
  function After(ids: seq<ConsID>, n: nat, r: Decoded<seq<ConsID>>): Decoded<seq<ConsID>> {
    if r.Err? then r else Ok(ids + r.value, n + r.count)
  }

  lemma PeekStarts(r: Decoded<seq<ConsID>>)
    ensures After([], 0, r) == r
  {
    if r.Ok? { assert [] + r.value == r.value; }
  }

  lemma PeekStep(kind: Kind, buff: Octets, at: nat, k: nat, ids: seq<ConsID>, n: nat)
    requires at <= |buff| && k > 0
    ensures var c := ParseId(kind, buff[at..]);
      if c.Err? then After(ids, n, PeekIds(kind, buff, at, k)) == Err(c.error)
      else After(ids, n, PeekIds(kind, buff, at, k)) == After(ids + [c.value], n + c.count, PeekIds(kind, buff, at + c.count, k - 1))
  {
    hide ParseId;
    var c := ParseId(kind, buff[at..]);
    if c.Ok? && PeekIds(kind, buff, at + c.count, k - 1).Ok? {
      var rest := PeekIds(kind, buff, at + c.count, k - 1).value;
      assert ids + ([c.value] + rest) == (ids + [c.value]) + rest;
    }
  }

  lemma PeekEnds(kind: Kind, buff: Octets, at: nat, ids: seq<ConsID>, n: nat)
    requires at <= |buff|
    ensures After(ids, n, PeekIds(kind, buff, at, 0)) == Ok(ids, n)
  {
    assert ids + [] == ids;
  }

  lemma NoIds(kind: Kind, t: Octets)
    ensures ParseIds(kind, t, 0) == Ok([], 0)
  {
  }

  lemma NextId(kind: Kind, t: Octets, i: nat, ids: seq<ConsID>, n: nat)
    requires ParseIds(kind, t, i) == Ok(ids, n) && n <= |t|
    ensures var c := ParseId(kind, t[n..]); c.Ok? ==> ParseIds(kind, t, i + 1) == Ok(ids + [c.value], n + c.count) && n + c.count <= |t|
  {
    hide ParseId;
  }

  lemma {:induction false} FirstBadId(kind: Kind, t: Octets, i: nat, k: nat, e: Error)
    requires i < k && ParseIds(kind, t, i).Ok? && ParseId(kind, t[ParseIds(kind, t, i).count..]) == Err(e)
    ensures ParseIds(kind, t, k) == Err(e)
  {
    hide ParseId;
    if i + 1 < k { FirstBadId(kind, t, i, k - 1, e); }
  }
}
