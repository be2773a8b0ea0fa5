/** The window of retained packets. */
module PacketWindow {
  /*
   The window of retained packets: at most four, at most 32 MiB together, always ending with the
   newest. Each arrival evicts from the front; the result is the longest suffix of the whole history
   that fits.
  */

  import opened Bytes
  import opened Lists

  datatype Packet = Packet(id: seq<Byte>, kind: seq<Byte>, json: seq<Byte>, digest: seq<Byte>, claims: seq<seq<Byte>>)

  const MAX_RETAINED_PACKETS: nat := 4
  const MAX_PACKETS_AGGREGATE_BYTES: nat := 32 * 1024 * 1024
  const MAX_PACKET_BYTES: nat := 16 * 1024 * 1024

  function Total(packets: seq<Packet>): nat {
    if packets == [] then 0 else |packets[0].json| + Total(packets[1..])
  }

  function Texts(packets: seq<Packet>): seq<seq<Byte>> {
    seq(|packets|, i requires 0 <= i < |packets| => packets[i].json)
  }

  /** The total is the length of all the texts together. */
  lemma {:induction false} TotalIsLength(packets: seq<Packet>)
    ensures Total(packets) == |Concat(Texts(packets))|
  {
    if packets != [] {
      var n := |packets| - 1;
      TotalIsLength(packets[..n]);
      TotalAppend(packets[..n], packets[n]);
      assert packets == packets[..n] + [packets[n]];
      assert Texts(packets)[..n] == Texts(packets[..n]);
    }
  }

  predicate Fits(packets: seq<Packet>) {
    |packets| <= MAX_RETAINED_PACKETS && Total(packets) <= MAX_PACKETS_AGGREGATE_BYTES
  }

  /** The last `k` packets. */
  function Last(packets: seq<Packet>, k: nat): (last: seq<Packet>)
    requires k <= |packets|
    ensures |last| == k
  {
    packets[|packets| - k..]
  }

  /** `window` is the longest suffix of `history` that fits. */
  ghost predicate LongestFittingSuffix(window: seq<Packet>, history: seq<Packet>) {
    && |window| <= |history|
    && window == Last(history, |window|)
    && Fits(window)
    && forall k | |window| < k <= |history| :: !Fits(Last(history, k))
  }

  // ------------------------------------------------------------ the two evictions

  function DropForCount(packets: seq<Packet>): seq<Packet> {
    if |packets| >= MAX_RETAINED_PACKETS then DropForCount(packets[1..]) else packets
  }

  function DropForBytes(packets: seq<Packet>, size: nat): seq<Packet> {
    if packets != [] && Total(packets) + size > MAX_PACKETS_AGGREGATE_BYTES then DropForBytes(packets[1..], size)
    else packets
  }

  function Retain(packets: seq<Packet>, packet: Packet): (kept: seq<Packet>)
    ensures kept != [] && kept[|kept| - 1] == packet
  {
    DropForBytes(DropForCount(packets), |packet.json|) + [packet]
  }

  lemma {:induction false} TotalAppend(packets: seq<Packet>, packet: Packet)
    ensures Total(packets + [packet]) == Total(packets) + |packet.json|
  {
    if packets != [] {
      TotalAppend(packets[1..], packet);
      assert (packets + [packet])[1..] == packets[1..] + [packet];
    }
  }

  lemma {:induction false} TotalOfSuffix(packets: seq<Packet>, k: nat)
    requires k <= |packets|
    ensures Total(packets[k..]) <= Total(packets)
  {
    if k > 0 {
      TotalOfSuffix(packets[1..], k - 1);
      assert packets[k..] == packets[1..][k - 1..];
    } else {
      assert packets[k..] == packets;
    }
  }

  /** What is left is a suffix that fits with the newcomer, and one more packet would not. */
  lemma {:induction false} DropForBytesKeeps(packets: seq<Packet>, size: nat) returns (k: nat)
    requires size <= MAX_PACKET_BYTES
    ensures k <= |packets| && DropForBytes(packets, size) == packets[k..]
    ensures Total(packets[k..]) + size <= MAX_PACKETS_AGGREGATE_BYTES
    ensures k > 0 ==> Total(packets[k - 1..]) + size > MAX_PACKETS_AGGREGATE_BYTES
  {
    if packets != [] && Total(packets) + size > MAX_PACKETS_AGGREGATE_BYTES {
      k := DropForBytesKeeps(packets[1..], size);
      assert packets[1..][k..] == packets[k + 1..];
      assert k > 0 ==> packets[1..][k - 1..] == packets[k..];
      k := k + 1;
      assert packets[0..] == packets;
    } else {
      k := 0;
      assert packets[0..] == packets;
    }
  }

  lemma {:induction false} DropForCountKeeps(packets: seq<Packet>)
    ensures DropForCount(packets) ==
      if |packets| >= MAX_RETAINED_PACKETS then packets[|packets| - (MAX_RETAINED_PACKETS - 1)..] else packets
  {
    if |packets| >= MAX_RETAINED_PACKETS {
      DropForCountKeeps(packets[1..]);
      if |packets| > MAX_RETAINED_PACKETS {
        assert packets[1..][|packets| - 1 - (MAX_RETAINED_PACKETS - 1)..] ==
          packets[|packets| - (MAX_RETAINED_PACKETS - 1)..];
      }
    }
  }

  // ------------------------------------------------------------ the window is optimal

  lemma LastAppend(history: seq<Packet>, packet: Packet, k: nat)
    requires k <= |history|
    ensures Last(history + [packet], k + 1) == Last(history, k) + [packet]
    ensures Total(Last(history + [packet], k + 1)) == Total(Last(history, k)) + |packet.json|
  {
    TotalAppend(Last(history, k), packet);
    assert Last(history + [packet], k + 1) == Last(history, k) + [packet];
  }

  lemma LastOfLast(history: seq<Packet>, m: nat, k: nat)
    requires k <= m <= |history|
    ensures Last(Last(history, m), k) == Last(history, k)
    ensures Total(Last(history, k)) <= Total(Last(history, m))
  {
    assert Last(Last(history, m), k) == Last(history, k);
    TotalOfSuffix(Last(history, m), m - k);
  }

  /** What an arrival keeps of the window: how many packets, and why not one more. */
  lemma Kept(window: seq<Packet>, packet: Packet) returns (k: nat)
    requires |packet.json| <= MAX_PACKET_BYTES && |window| <= MAX_RETAINED_PACKETS
    ensures k <= |window| && k < MAX_RETAINED_PACKETS && Retain(window, packet) == Last(window, k) + [packet]
    ensures Total(Last(window, k)) + |packet.json| <= MAX_PACKETS_AGGREGATE_BYTES
    ensures k < |window| ==>
      k + 1 == MAX_RETAINED_PACKETS || Total(Last(window, k + 1)) + |packet.json| > MAX_PACKETS_AGGREGATE_BYTES
  {
    DropForCountKeeps(window);
    var few := DropForCount(window);
    var dropped := DropForBytesKeeps(few, |packet.json|);
    k := |few| - dropped;
    assert few[dropped..] == Last(window, k);
    if dropped > 0 {
      assert few[dropped - 1..] == Last(window, k + 1);
    }
  }

  lemma KeptIsLast(window: seq<Packet>, history: seq<Packet>, packet: Packet, k: nat)
    requires |window| <= |history| && window == Last(history, |window|) && k <= |window|
    ensures Last(window, k) + [packet] == Last(history + [packet], k + 1)
    ensures Total(Last(history + [packet], k + 1)) == Total(Last(window, k)) + |packet.json|
  {
    LastOfLast(history, |window|, k);
    LastAppend(history, packet, k);
  }

  /** One arrival keeps the window the longest suffix that fits, with the newcomer last. */
  lemma RetainIsOptimal(window: seq<Packet>, history: seq<Packet>, packet: Packet)
    requires LongestFittingSuffix(window, history) && |packet.json| <= MAX_PACKET_BYTES
    ensures LongestFittingSuffix(Retain(window, packet), history + [packet])
  {
    hide Retain, DropForBytes, DropForCount, Total, Last;
    var k := Kept(window, packet);
    KeptIsLast(window, history, packet, k);
    forall m: nat | k + 1 < m <= |history| + 1
      ensures !Fits(Last(history + [packet], m))
    {
      LongerDoesNotFit(window, history, packet, k, m - 1);
    }
  }

  lemma LongerDoesNotFit(window: seq<Packet>, history: seq<Packet>, packet: Packet, k: nat, m: nat)
    requires LongestFittingSuffix(window, history) && k <= |window| && k < m <= |history|
    requires k < |window| ==>
      k + 1 == MAX_RETAINED_PACKETS || Total(Last(window, k + 1)) + |packet.json| > MAX_PACKETS_AGGREGATE_BYTES
    ensures !Fits(Last(history + [packet], m + 1))
  {
    LastAppend(history, packet, m);
    if k < |window| {
      LastOfLast(history, |window|, k + 1);
      LastOfLast(history, m, k + 1);
    }
  }

  // ------------------------------------------------------------ whole histories

  function RetainAll(history: seq<Packet>): seq<Packet> {
    if history == [] then [] else Retain(RetainAll(history[..|history| - 1]), history[|history| - 1])
  }

  lemma EmptyWindow()
    ensures LongestFittingSuffix([], [])
  {
  }

  /** After any history of acceptable packets. */
  lemma {:induction false} WindowIsOptimal(history: seq<Packet>)
    requires forall p | p in history :: |p.json| <= MAX_PACKET_BYTES
    ensures LongestFittingSuffix(RetainAll(history), history)
    ensures history != [] ==>
      RetainAll(history) != [] && RetainAll(history)[|RetainAll(history)| - 1] == history[|history| - 1]
  {
    EmptyWindow();
    hide LongestFittingSuffix, Retain;
    if history != [] {
      var n := |history| - 1;
      WindowIsOptimal(history[..n]);
      RetainIsOptimal(RetainAll(history[..n]), history[..n], history[n]);
      assert history == history[..n] + [history[n]];
    }
  }
}
