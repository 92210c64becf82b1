/** The wire form of events. The hash of an event is taken over it, so the identity of an event rests on
    no two events having the same form. */
module EventCodec {
  import opened Varints

  const HASH_LEN: nat := 32
  const MAX_MSG_SIZE: nat := 100000000

  datatype WirePointer = WirePointer(id: int, index: int, hash: Octets)
  datatype WireEvent = WireEvent(local: WirePointer, remotes: seq<WirePointer>, buff: Octets)

  ghost predicate Int32(i: int) { -(U32 / 2) <= i < U32 / 2 }

  /** The program's conversion of a 32-bit integer to 64 bits without sign. */
  function Widen(i: int): nat { i % U64 }

  /** The program's conversion back keeps the lowest 32 bits, the highest of which is the sign. */
  function Narrow(v: nat): int {
    if v % U32 < U32 / 2 then v % U32 else v % U32 - U32
  }

  lemma NarrowWiden(i: int)
    requires Int32(i)
    ensures Narrow(Widen(i)) == i && Widen(i) < U64
  {
    if i < 0 {
      assert Widen(i) == U64 + i == (U32 - 1) * U32 + (U32 + i);
    }
  }

  /** The sizes the program's types give. */
  ghost predicate PointerOk(p: WirePointer) {
    Int32(p.id) && Int32(p.index) && |p.hash| == HASH_LEN
  }

  ghost predicate EventOk(e: WireEvent) {
    && PointerOk(e.local) && 0 < |e.remotes| <= MAX_MSG_SIZE && |e.buff| < U64
    && forall i :: 0 <= i < |e.remotes| ==> PointerOk(e.remotes[i])
  }

  // ----- The form of an event, and reading it -----

  function PointerForm(p: WirePointer): Octets {
    Uvarint(Widen(p.id)) + Uvarint(Widen(p.index)) + p.hash
  }

  function PointersForm(ps: seq<WirePointer>): Octets {
    if ps == [] then [] else PointersForm(ps[..|ps| - 1]) + PointerForm(ps[|ps| - 1])
  }

  function EventForm(e: WireEvent): Octets {
    PointerForm(e.local) + Uvarint(|e.remotes|) + PointersForm(e.remotes) + Uvarint(|e.buff|) + e.buff
  }

  /** Reading narrows identity and index to 32 bits with a sign. */
  function ParsePointer(s: Octets): (r: Decoded<WirePointer>)
    ensures r.Ok? ==> r.count <= |s|
  {
    var id := ParseUvarint(s, 0);
    if id.Err? then Err(id.error) else
    var index := ParseUvarint(s[id.count..], 0);
    if index.Err? then Err(index.error) else
    var hash := Take(s[id.count + index.count..], HASH_LEN);
    if hash.Err? then Err(hash.error) else
    Ok(WirePointer(Narrow(id.value), Narrow(index.value), hash.value), id.count + index.count + hash.count)
  }

  function ParsePointers(s: Octets, k: nat): (r: Decoded<seq<WirePointer>>)
    ensures r.Ok? ==> r.count <= |s|
  {
    if k == 0 then Ok([], 0) else
    var init := ParsePointers(s, k - 1);
    if init.Err? then init else
    var last := ParsePointer(s[init.count..]);
    if last.Err? then Err(last.error) else Ok(init.value + [last.value], init.count + last.count)
  }

  function ParseBuff(s: Octets): (r: Decoded<Octets>)
    ensures r.Ok? ==> r.count <= |s|
  {
    var size := ParseUvarint(s, 0);
    if size.Err? then Err(size.error)
    else if size.value == 0 then Ok([], size.count)
    else
      var buff := Take(s[size.count..], size.value);
      if buff.Err? then buff else Ok(buff.value, size.count + buff.count)
  }

  function ParseRemotes(s: Octets): (r: Decoded<seq<WirePointer>>)
    ensures r.Ok? ==> r.count <= |s|
  {
    var n := ParseUvarint(s, 0);
    if n.Err? then Err(n.error)
    else if n.value > MAX_MSG_SIZE || n.value == 0 then Err(InvalidRemoteAncestorCount)
    else
      var ps := ParsePointers(s[n.count..], n.value);
      if ps.Err? then ps else Ok(ps.value, n.count + ps.count)
  }

  function ParseEvent(s: Octets): (r: Decoded<WireEvent>)
    ensures r.Ok? ==> r.count <= |s|
  {
    var local := ParsePointer(s);
    if local.Err? then Err(local.error) else
    var remotes := ParseRemotes(s[local.count..]);
    if remotes.Err? then Err(remotes.error) else
    var buff := ParseBuff(s[local.count + remotes.count..]);
    if buff.Err? then Err(buff.error) else
    Ok(WireEvent(local.value, remotes.value, buff.value), local.count + remotes.count + buff.count)
  }

  // ----- Reading back what was written -----

  lemma PointerRoundTrip(p: WirePointer, rest: Octets)
    requires PointerOk(p)
    ensures ParsePointer(PointerForm(p) + rest) == Ok(p, |PointerForm(p)|)
  {
    hide Uvarint, ParseUvarint, Widen, Narrow;
    NarrowWiden(p.id);
    NarrowWiden(p.index);
    var a, b := Uvarint(Widen(p.id)), Uvarint(Widen(p.index));
    var s := PointerForm(p) + rest;
    assert s == a + (b + p.hash + rest);
    UvarintRoundTrip(Widen(p.id), b + p.hash + rest);
    assert s[|a|..] == b + (p.hash + rest);
    UvarintRoundTrip(Widen(p.index), p.hash + rest);
    assert s[|a| + |b|..] == p.hash + rest;
    TakeBack(p.hash, rest);
  }

  /** A pointer is the number of its identity, then the number of its index, then its hash. */
  lemma PointerLayout(p: WirePointer, rest: Octets)
    requires PointerOk(p)
    ensures
      var s := PointerForm(p) + rest;
      var id := ParseUvarint(s, 0);
      id.Ok? && Narrow(id.value) == p.id &&
      var index := ParseUvarint(s[id.count..], 0);
      && index.Ok? && Narrow(index.value) == p.index
      && |PointerForm(p)| == id.count + index.count + HASH_LEN
      && s[id.count + index.count..id.count + index.count + HASH_LEN] == p.hash
  {
    hide Uvarint, ParseUvarint, Widen, Narrow;
    NarrowWiden(p.id);
    NarrowWiden(p.index);
    var a, b := Uvarint(Widen(p.id)), Uvarint(Widen(p.index));
    var s := PointerForm(p) + rest;
    assert s == a + (b + p.hash + rest);
    UvarintRoundTrip(Widen(p.id), b + p.hash + rest);
    assert s[|a|..] == b + (p.hash + rest);
    UvarintRoundTrip(Widen(p.index), p.hash + rest);
  }

  lemma {:induction false} PointersRoundTrip(ps: seq<WirePointer>, rest: Octets)
    requires forall i :: 0 <= i < |ps| ==> PointerOk(ps[i])
    ensures ParsePointers(PointersForm(ps) + rest, |ps|) == Ok(ps, |PointersForm(ps)|)
  {
    hide ParsePointer, PointerForm, PointerOk, ParsePointers, PointersForm;
    if ps == [] {
      NoPointers(PointersForm(ps) + rest);
      NoForms();
    } else {
      var init, last := ps[..|ps| - 1], ps[|ps| - 1];
      var s := PointersForm(ps) + rest;
      FormsSplit(ps);
      assert s == PointersForm(init) + (PointerForm(last) + rest);
      PointersRoundTrip(init, PointerForm(last) + rest);
      assert s[|PointersForm(init)|..] == PointerForm(last) + rest;
      PointerRoundTrip(last, rest);
      NextPointer(s, |init|, init, |PointersForm(init)|);
      assert init + [last] == ps;
    }
  }

  lemma NoForms()
    ensures PointersForm([]) == []
  {
  }

  lemma FormsSplit(ps: seq<WirePointer>)
    requires ps != []
    ensures PointersForm(ps) == PointersForm(ps[..|ps| - 1]) + PointerForm(ps[|ps| - 1])
  {
  }

  lemma RemotesRoundTrip(ps: seq<WirePointer>, rest: Octets)
    requires 0 < |ps| <= MAX_MSG_SIZE && forall i :: 0 <= i < |ps| ==> PointerOk(ps[i])
    ensures ParseRemotes(Uvarint(|ps|) + PointersForm(ps) + rest) == Ok(ps, |Uvarint(|ps|)| + |PointersForm(ps)|)
  {
    hide Uvarint, ParseUvarint, ParsePointers, PointersForm, PointerOk;
    var n, body := Uvarint(|ps|), PointersForm(ps);
    var s := n + body + rest;
    assert s == n + (body + rest);
    UvarintRoundTrip(|ps|, body + rest);
    assert s[|n|..] == body + rest;
    PointersRoundTrip(ps, rest);
  }

  lemma BuffRoundTrip(buff: Octets, rest: Octets)
    requires |buff| < U64
    ensures ParseBuff(Uvarint(|buff|) + buff + rest) == Ok(buff, |Uvarint(|buff|)| + |buff|)
  {
    hide Uvarint, ParseUvarint;
    var n := Uvarint(|buff|);
    var s := n + buff + rest;
    assert s == n + (buff + rest);
    UvarintRoundTrip(|buff|, buff + rest);
    assert s[|n|..] == buff + rest;
    TakeBack(buff, rest);
  }

  /** Decoding the form of an event, whatever follows it, gives the event and the length of the form. */
  lemma EventRoundTrip(e: WireEvent, rest: Octets)
    requires EventOk(e)
    ensures ParseEvent(EventForm(e) + rest) == Ok(e, |EventForm(e)|)
  {
    hide Uvarint, ParsePointer, PointerForm, ParseRemotes, ParseBuff, PointersForm, PointerOk;
    var a, b, c := PointerForm(e.local), Uvarint(|e.remotes|) + PointersForm(e.remotes), Uvarint(|e.buff|) + e.buff;
    var s := EventForm(e) + rest;
    assert s == a + (b + c + rest);
    PointerRoundTrip(e.local, b + c + rest);
    assert s[|a|..] == b + (c + rest);
    RemotesRoundTrip(e.remotes, c + rest);
    assert s[|a| + |b|..] == c + rest;
    BuffRoundTrip(e.buff, rest);
  }

  /** An event is its own pointer, then the number of its remote ancestors and their pointers in order, then
      the length of the buffer and the buffer. */
  lemma EventLayout(e: WireEvent, i: nat)
    requires EventOk(e) && i < |e.remotes|
    ensures
      var s := EventForm(e);
      var a := |PointerForm(e.local)|;
      var n := ParseUvarint(s[a..], 0);
      && s[..a] == PointerForm(e.local) && n.Ok? && n.value == |e.remotes|
      && var at := a + n.count + |PointersForm(e.remotes[..i])|;
      && at + |PointerForm(e.remotes[i])| + |e.buff| <= |s| && s[at..at + |PointerForm(e.remotes[i])|] == PointerForm(e.remotes[i])
      && s[|s| - |e.buff|..] == e.buff
      && var m := a + n.count + |PointersForm(e.remotes)|; m + |e.buff| <= |s| && ParseUvarint(s[m..], 0) == Ok(|e.buff|, |s| - |e.buff| - m)
  {
    hide Uvarint, ParseUvarint, PointerForm, PointersForm, PointerOk;
    var a, n, ps, m := PointerForm(e.local), Uvarint(|e.remotes|), PointersForm(e.remotes), Uvarint(|e.buff|);
    var s := EventForm(e);
    assert s[|a|..] == n + (ps + m + e.buff);
    UvarintRoundTrip(|e.remotes|, ps + m + e.buff);
    assert s[|a| + |n| + |ps|..] == m + e.buff;
    UvarintRoundTrip(|e.buff|, e.buff);
    PointerAt(e.remotes, i);
    var k := |PointersForm(e.remotes[..i])|;
    assert s[|a| + |n|..][..|ps|] == ps;
    assert s[|a| + |n| + k..|a| + |n| + k + |PointerForm(e.remotes[i])|] == ps[k..k + |PointerForm(e.remotes[i])|];
  }

  lemma {:induction false} PointerAt(ps: seq<WirePointer>, i: nat)
    requires i < |ps|
    ensures var k := |PointersForm(ps[..i])|;
      k + |PointerForm(ps[i])| <= |PointersForm(ps)| && PointersForm(ps)[k..k + |PointerForm(ps[i])|] == PointerForm(ps[i])
  {
    hide PointerForm;
    var init := ps[..|ps| - 1];
    if i < |ps| - 1 {
      PointerAt(init, i);
      assert init[..i] == ps[..i];
    }
  }

  /** No form is a proper beginning of another, and no two events have the same form. */
  lemma EventFormInjective(a: WireEvent, x: Octets, b: WireEvent, y: Octets)
    requires EventOk(a) && EventOk(b) && EventForm(a) + x == EventForm(b) + y
    ensures a == b && x == y
  {
    hide ParseEvent, EventForm, EventOk;
    EventRoundTrip(a, x);
    EventRoundTrip(b, y);
    assert (EventForm(a) + x)[|EventForm(a)|..] == x;
    assert (EventForm(b) + y)[|EventForm(b)|..] == y;
  }

  // ----- The program's encoder and decoder -----

  class Writer {
    var data: Octets

    constructor ()
      ensures data == []
    {
      data := [];
    }

    method Write(s: Octets) returns (n: nat)
      modifies this
      ensures data == old(data) + s && n == |s|
    {
      data := data + s;
      n := |s|;
    }

    method EncodePointer(p: WirePointer) returns (n: nat)
      requires |p.hash| == HASH_LEN
      modifies this
      ensures data == old(data) + PointerForm(p) && n == |PointerForm(p)|
    {
      n := Write(Uvarint(Widen(p.id)));
      var n1 := Write(Uvarint(Widen(p.index)));
      n := n + n1;
      n1 := Write(p.hash);
      n := n + n1;
      assert data == old(data) + PointerForm(p);
    }

    /** Writes the form of an event; one without remote ancestors is refused half way. */
    method EncodeEvent(e: WireEvent) returns (r: Decoded<()>)
      requires |e.local.hash| == HASH_LEN && forall i :: 0 <= i < |e.remotes| ==> |e.remotes[i].hash| == HASH_LEN
      modifies this
      ensures e.remotes == [] ==> r == Err(InvalidRemoteAncestorCount)
      ensures e.remotes != [] ==> r == Ok((), |EventForm(e)|) && data == old(data) + EventForm(e)
    {
      hide PointerForm, Uvarint;
      var n := EncodePointer(e.local);
      if |e.remotes| == 0 {
        return Err(InvalidRemoteAncestorCount);
      }
      var n1 := Write(Uvarint(|e.remotes|));
      n := n + n1;
      ghost var head := PointerForm(e.local) + Uvarint(|e.remotes|);
      assert data == old(data) + head;
      var i := 0;
      while i < |e.remotes|
        invariant 0 <= i <= |e.remotes|
        invariant data == old(data) + head + PointersForm(e.remotes[..i]) && n == |head| + |PointersForm(e.remotes[..i])|
      {
        assert e.remotes[..i + 1][..i] == e.remotes[..i];
        n1 := EncodePointer(e.remotes[i]);
        n := n + n1;
        i := i + 1;
      }
      assert e.remotes[..i] == e.remotes;
      n1 := Write(Uvarint(|e.buff|));
      n := n + n1;
      n1 := Write(e.buff);
      n := n + n1;
      assert data == old(data) + EventForm(e);
      r := Ok((), n);
    }
  }

  method DecodePointer(reader: Reader) returns (r: Decoded<WirePointer>)
    requires reader.Valid()
    modifies reader`pos
    ensures reader.Valid() && r == ParsePointer(old(reader.Rest()))
    ensures r.Ok? ==> reader.pos == old(reader.pos) + r.count
  {
    hide ParseUvarint;
    ghost var s := reader.Rest();
    var id := reader.ReadUvarint();
    if id.Err? { return Err(id.error); }
    assert s[id.count..] == reader.Rest();
    var index := reader.ReadUvarint();
    if index.Err? { return Err(index.error); }
    assert s[id.count + index.count..] == reader.Rest();
    var hash := reader.ReadBytes(HASH_LEN);
    if hash.Err? { return Err(hash.error); }
    r := Ok(WirePointer(Narrow(id.value), Narrow(index.value), hash.value), id.count + index.count + hash.count);
  }

  method DecodeEvent(reader: Reader) returns (r: Decoded<WireEvent>)
    requires reader.Valid()
    modifies reader`pos
    ensures reader.Valid() && r == ParseEvent(old(reader.Rest()))
    ensures r.Ok? ==> reader.pos == old(reader.pos) + r.count
  {
    hide ParsePointer, ParseRemotes, ParseBuff;
    ghost var s := reader.Rest();
    var local := DecodePointer(reader);
    if local.Err? { return Err(local.error); }
    assert s[local.count..] == reader.Rest();
    var remotes := DecodeRemotes(reader);
    if remotes.Err? { return Err(remotes.error); }
    assert s[local.count + remotes.count..] == reader.Rest();
    var buff := DecodeBuff(reader);
    if buff.Err? { return Err(buff.error); }
    r := Ok(WireEvent(local.value, remotes.value, buff.value), local.count + remotes.count + buff.count);
  }

  method DecodeRemotes(reader: Reader) returns (r: Decoded<seq<WirePointer>>)
    requires reader.Valid()
    modifies reader`pos
    ensures reader.Valid() && r == ParseRemotes(old(reader.Rest()))
    ensures r.Ok? ==> reader.pos == old(reader.pos) + r.count
  {
    hide ParseUvarint, ParsePointer, ParsePointers;
    ghost var s := reader.Rest();
    var v := reader.ReadUvarint();
    if v.Err? { return Err(v.error); }
    if v.value > MAX_MSG_SIZE || v.value == 0 {
      return Err(InvalidRemoteAncestorCount);
    }
    ghost var t := reader.Rest();
    assert s[v.count..] == t;
    var ps: seq<WirePointer>, n: nat, i: nat := [], 0, 0;
    NoPointers(t);
    while i < v.value
      invariant 0 <= i <= v.value && reader.Valid() && n <= |t| && reader.pos == old(reader.pos) + v.count + n
      invariant reader.Rest() == t[n..] && ParsePointers(t, i) == Ok(ps, n)
    {
      NextPointer(t, i, ps, n);
      var p := DecodePointer(reader);
      if p.Err? {
        FirstFailure(t, i, v.value, p.error);
        return Err(p.error);
      }
      assert t[n..][p.count..] == t[n + p.count..];
      ps, n, i := ps + [p.value], n + p.count, i + 1;
    }
    r := Ok(ps, v.count + n);
  }

  lemma NoPointers(t: Octets)
    ensures ParsePointers(t, 0) == Ok([], 0)
  {
  }

  lemma NextPointer(t: Octets, i: nat, ps: seq<WirePointer>, n: nat)
    requires ParsePointers(t, i) == Ok(ps, n) && n <= |t|
    ensures var p := ParsePointer(t[n..]); p.Ok? ==> ParsePointers(t, i + 1) == Ok(ps + [p.value], n + p.count) && n + p.count <= |t|
  {
    hide ParsePointer;
  }

  lemma {:induction false} FirstFailure(t: Octets, i: nat, k: nat, e: Error)
    requires i < k && ParsePointers(t, i).Ok? && ParsePointer(t[ParsePointers(t, i).count..]) == Err(e)
    ensures ParsePointers(t, k) == Err(e)
  {
    hide ParsePointer;
    if i + 1 < k { FirstFailure(t, i, k - 1, e); }
  }

  method DecodeBuff(reader: Reader) returns (r: Decoded<Octets>)
    requires reader.Valid()
    modifies reader`pos
    ensures reader.Valid() && r == ParseBuff(old(reader.Rest()))
    ensures r.Ok? ==> reader.pos == old(reader.pos) + r.count
  {
    hide ParseUvarint;
    ghost var s := reader.Rest();
    var v := reader.ReadUvarint();
    if v.Err? { return Err(v.error); }
    assert s[v.count..] == reader.Rest();
    if v.value > 0 {
      var buff := reader.ReadBytes(v.value);
      if buff.Err? { return Err(buff.error); }
      return Ok(buff.value, v.count + buff.count);
    }
    r := Ok([], v.count);
  }
}
