/** The 108 bytes a provider and its consumers share, the counter at the head of
    them, and the copies in and out. */
module SharedHeap {
  import opened Wrappers
  import opened Octets

  const HEAP_LEN: nat := 108

  const DATA_ID_WRAP: nat := 0x2000_0000

  /** `next_data_id` */
  function NextDataId(prev: nat): (id: nat)
    ensures 0 < id < DATA_ID_WRAP && id != prev
  {
    prev % (DATA_ID_WRAP - 1) + 1
  }

  /** The counter of a provider that published `n` frames. */
  function IdAfter(n: nat): (id: nat)
    ensures n > 0 ==> 0 < id < DATA_ID_WRAP
  {
    if n == 0 then 0 else NextDataId(IdAfter(n - 1))
  }

  /** It runs through every value but 0 and then starts over. */
  lemma {:induction false} IdsInTurn(n: nat)
    ensures IdAfter(n) == if n == 0 then 0 else (n - 1) % (DATA_ID_WRAP - 1) + 1
  {
    if n > 1 {
      IdsInTurn(n - 1);
      OneMoreInTurn(n - 2);
    }
  }

  lemma OneMoreInTurn(k: nat)
    ensures (k % (DATA_ID_WRAP - 1) + 1) % (DATA_ID_WRAP - 1) == (k + 1) % (DATA_ID_WRAP - 1)
  {
  }

  function LittleEndian(n: nat): (bs: Bytes)
    requires n < 0x1_0000_0000
    ensures |bs| == 4
  {
    [(n % 0x100) as byte, (n / 0x100 % 0x100) as byte, (n / 0x100 / 0x100 % 0x100) as byte,
     (n / 0x100 / 0x100 / 0x100) as byte]
  }

  /** The counter in the first four bytes. */
  function DataId(heap: Bytes): nat
    requires |heap| >= 4
  {
    heap[0] as nat + 0x100 * heap[1] as nat + 0x1_0000 * heap[2] as nat
    + 0x100_0000 * heap[3] as nat
  }

  function Zeros(n: nat): (bs: Bytes)
    ensures |bs| == n && forall i :: 0 <= i < n ==> bs[i] == 0
  {
    seq(n, _ => 0)
  }

  /** What a frame says, apart from the counter. */
  type Payload = bs: Bytes | |bs| == HEAP_LEN - 4 witness Zeros(HEAP_LEN - 4)

  /** `ft_heap_bytes`: the counter, and the rest as the frame has it. */
  function HeapBytes(id: nat, payload: Payload): (heap: Bytes)
    requires id < DATA_ID_WRAP
    ensures |heap| == HEAP_LEN && heap[4..] == payload
  {
    LittleEndian(id) + payload
  }

  lemma DataIdReadsBack(id: nat, payload: Payload)
    requires id < DATA_ID_WRAP
    ensures DataId(HeapBytes(id, payload)) == id
  {
    var heap, bs := HeapBytes(id, payload), LittleEndian(id);
    assert heap[0] == bs[0] && heap[1] == bs[1] && heap[2] == bs[2] && heap[3] == bs[3];
    var q := id / 0x100;
    var r := q / 0x100;
    assert r == r / 0x100 * 0x100 + r % 0x100 && q == r * 0x100 + q % 0x100;
    assert id == q * 0x100 + id % 0x100;
  }

  /** What `published_frame` makes of the bytes read: nothing, where no frame was
      ever published. */
  function Published(raw: Bytes): Option<Bytes>
    requires |raw| == HEAP_LEN
  {
    if DataId(raw) == 0 then None else Some(raw)
  }

  /** The counter in front, and then the payload, byte for byte. */
  predicate HoldsFrame(view: Bytes, id: nat, payload: Payload) {
    |view| == HEAP_LEN && DataId(view) == id && view[4..] == payload
  }

  // ------------------------------------------------------------------- copies

  /** A provider that nobody interrupts: its counter and its view. */
  class Provider {
    var id: nat
    const view: array<byte>

    ghost predicate Valid()
      reads this
    {
      view.Length == HEAP_LEN && id < DATA_ID_WRAP
    }

    constructor (view: array<byte>)
      requires view.Length == HEAP_LEN
      ensures Valid() && this.view == view && id == 0
    {
      this.view, id := view, 0;
    }

    /** `publish`: the counter advances whether or not the wait for the mutex
        gives it, and the frame is copied only if it does. */
    method Publish(payload: Payload, waited: bool)
      requires Valid()
      modifies this, view
      ensures Valid() && id == NextDataId(old(id))
      ensures waited ==> HoldsFrame(view[..], id, payload)
      ensures !waited ==> view[..] == old(view[..])
    {
      id := NextDataId(id);
      var heap := HeapBytes(id, payload);
      DataIdReadsBack(id, payload);
      if waited {
        for i := 0 to HEAP_LEN
          invariant Valid() && id == NextDataId(old(id))
          invariant view[..i] == heap[..i]
        {
          view[i] := heap[i];
          assert view[..i + 1] == heap[..i + 1];
        }
        assert view[..HEAP_LEN] == view[..] && heap[..HEAP_LEN] == heap;
      }
    }

    /** `serve`, over the datagrams that arrive, each with how a wait for the
        mutex goes then: those that decode are published, in their order, and the
        rest only counted. */
    method Serve(datagrams: seq<Datagram>) returns (received: nat, rejected: nat)
      requires Valid() && id == 0
      modifies this, view
      ensures Valid() && received + rejected == |datagrams|
      ensures received == |Decoded(datagrams)| && id == IdAfter(received)
      ensures Shows(old(view[..]), Decoded(datagrams), view[..])
    {
      received, rejected := 0, 0;
      ghost var start, attempts: seq<Attempt> := view[..], [];
      for i := 0 to |datagrams|
        invariant Valid() && received + rejected == i && attempts == DecodedFirst(datagrams, i)
        invariant received == |attempts| && id == IdAfter(received)
        invariant Shows(start, attempts, view[..])
      {
        ghost var seen := view[..];
        match datagrams[i].frame {
          case Some(payload) =>
            Publish(payload, datagrams[i].waited);
            ghost var next := Attempt(payload, datagrams[i].waited);
            ShowsNext(start, attempts, next, seen, view[..]);
            attempts, received := attempts + [next], received + 1;
          case None =>
            assert attempts + [] == attempts;
            rejected := rejected + 1;
        }
      }
    }
  }

  /** The frame a datagram decodes to, if it does, and whether the mutex is had. */
  datatype Datagram = Datagram(frame: Option<Payload>, waited: bool)

  /** One frame that is to be published. */
  datatype Attempt = Attempt(payload: Payload, waited: bool)

  function AttemptOf(datagram: Datagram): seq<Attempt> {
    match datagram.frame
    case Some(payload) => [Attempt(payload, datagram.waited)]
    case None => []
  }

  /** The frames of the first `n` datagrams, those of them that decode. */
  function DecodedFirst(datagrams: seq<Datagram>, n: nat): seq<Attempt>
    requires n <= |datagrams|
  {
    if n == 0 then [] else DecodedFirst(datagrams, n - 1) + AttemptOf(datagrams[n - 1])
  }

  function Decoded(datagrams: seq<Datagram>): seq<Attempt> {
    DecodedFirst(datagrams, |datagrams|)
  }

  /** The last of the attempts that had the mutex. */
  function LastHad(attempts: seq<Attempt>): (last: Option<nat>)
    ensures last.Some? ==> last.value < |attempts| && attempts[last.value].waited
    ensures forall i :: 0 <= i < |attempts| && attempts[i].waited ==> last.Some? && i <= last.value
  {
    if attempts == [] then None
    else
      var n := |attempts| - 1;
      if attempts[n].waited then Some(n) else LastHad(attempts[..n])
  }

  /** The bytes after those attempts: the last that had the mutex, under a counter
      that tells how many there were up to it, the others among them. */
  predicate Shows(before: Bytes, attempts: seq<Attempt>, view: Bytes) {
    match LastHad(attempts)
    case None => view == before
    case Some(n) => HoldsFrame(view, IdAfter(n + 1), attempts[n].payload)
  }

  lemma ShowsNext(before: Bytes, attempts: seq<Attempt>, next: Attempt, view: Bytes, view1: Bytes)
    requires Shows(before, attempts, view)
    requires if next.waited then HoldsFrame(view1, IdAfter(|attempts| + 1), next.payload)
             else view1 == view
    ensures Shows(before, attempts + [next], view1)
  {
    LastHadNext(attempts, next);
    if !next.waited && LastHad(attempts).Some? {
      assert (attempts + [next])[LastHad(attempts).value] == attempts[LastHad(attempts).value];
    }
  }

  lemma LastHadNext(attempts: seq<Attempt>, next: Attempt)
    ensures LastHad(attempts + [next]) == if next.waited then Some(|attempts|) else LastHad(attempts)
  {
    assert (attempts + [next])[..|attempts|] == attempts;
  }

  /** `read`, where nobody writes meanwhile. */
  method Read(view: array<byte>) returns (out: Bytes)
    requires view.Length == HEAP_LEN
    ensures out == view[..]
  {
    out := [];
    for i := 0 to HEAP_LEN
      invariant out == view[..i]
    {
      out := out + [view[i]];
    }
  }

  /** Two counters are the same exactly when as many calls lie between them as it
      takes to come round, or a multiple of that. */
  lemma SameId(a: nat, b: nat)
    requires a > 0 && b > 0
    ensures IdAfter(a) == IdAfter(b) <==> (a - b) % (DATA_ID_WRAP - 1) == 0
  {
    IdsInTurn(a);
    IdsInTurn(b);
    SameRemainder(a - 1, b - 1);
  }

  lemma SameRemainder(a: nat, b: nat)
    ensures a % (DATA_ID_WRAP - 1) == b % (DATA_ID_WRAP - 1)
       <==> (a - b) % (DATA_ID_WRAP - 1) == 0
  {
    var m := DATA_ID_WRAP - 1;
    var q, k := a / m - b / m, (a - b) / m;
    assert a - b == q * m + (a % m - b % m) == k * m + (a - b) % m;
  }
}
