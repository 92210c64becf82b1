/** Events of the hashgraph and their wire form.

An event is a value that holds its ancestors.  The program links events by the
hash of their encoding; with hashes taken as injective, two events have the same
hash exactly when they are the same value, so a hash is modelled by the event it
was computed from (`HashOf`), the fixed initial hash, or bytes that are the hash of no
event (`RawHash`).
*/
module Events {

  type Bytes = seq<bv8>

  const HASH_LEN := 32

  datatype Event =
    | Genesis(id: nat, index: nat)
    | Derived(id: nat, index: nat, parent: Event, remotes: seq<Event>, buff: Bytes)

  datatype Hash = HashOf(event: Event) | InitHash | RawHash(bytes: Bytes)

  datatype EventPointer = EventPointer(id: nat, index: nat, hash: Hash)

  datatype EventInfo = EventInfo(local: EventPointer, remotes: seq<EventPointer>, buff: Bytes)

  datatype Option<+T> = None | Some(value: T)

  function Max(a: nat, b: nat): nat { if a < b then b else a }

  function HashSize(h: Hash): nat {
    if h.RawHash? then |h.bytes| else HASH_LEN
  }

  /** The direct ancestors: the local one first, then the remote ones. */
  function Parents(e: Event): seq<Event> {
    if e.Genesis? then [] else [e.parent] + e.remotes
  }

  function Pointer(e: Event): EventPointer {
    EventPointer(e.id, e.index, HashOf(e))
  }

  function Pointers(es: seq<Event>): (ps: seq<EventPointer>)
    ensures |ps| == |es|
    ensures forall k :: 0 <= k < |es| ==> ps[k] == Pointer(es[k])
  {
    if es == [] then [] else [Pointer(es[0])] + Pointers(es[1..])
  }

  /** What is sent and hashed for an event: the identity of its creator, its index,
      and the hashes of its direct ancestors. */
  function Info(e: Event): EventInfo {
    if e.Genesis? then
      EventInfo(EventPointer(e.id, e.index, InitHash), [EventPointer(0, 0, InitHash)], [])
    else
      EventInfo(EventPointer(e.id, e.index, HashOf(e.parent)), Pointers(e.remotes), e.buff)
  }

  /** Two events with the same wire form are the same event. */
  lemma InfoInjective(a: Event, b: Event)
    requires Info(a) == Info(b)
    ensures a == b
  {
    if a.Derived? && b.Derived? {
      forall k | 0 <= k < |a.remotes|
        ensures a.remotes[k] == b.remotes[k]
      {
        assert Pointers(a.remotes)[k] == Pointers(b.remotes)[k];
      }
      assert a.remotes == b.remotes;
    }
  }
}
