/** Splitting a payload into packets of bounded size, and putting it together again. */
module Packets {
  import opened Arithmetic

  type Bytes = seq<bv8>

  /** Every packet carries the length of the whole payload. */
  datatype Packet = Packet(dataLen: nat, data: Bytes)

  function Joined(packets: seq<Packet>): Bytes {
    if packets == [] then [] else Joined(packets[..|packets| - 1]) + packets[|packets| - 1].data
  }

  function Ceil(n: nat, limit: nat): nat
    requires limit > 0
  {
    (n + limit - 1) / limit
  }

  /** At least one packet, all but the last one full, each with the total length; together they are
      the payload. */
  ghost predicate Splits(data: Bytes, limit: nat, packets: seq<Packet>) {
    && packets != []
    && (forall k | 0 <= k < |packets| :: packets[k].dataLen == |data|)
    && (forall k | 0 <= k < |packets| - 1 :: |packets[k].data| == limit)
    && |packets[|packets| - 1].data| <= limit
    && (data != [] ==> packets[|packets| - 1].data != [])
    && Joined(packets) == data
  }

  /** The sending loop; it runs once even for an empty payload. */
  method BuildPackets(data: Bytes, limit: nat) returns (packets: seq<Packet>)
    requires limit > 0
    ensures Splits(data, limit, packets)
  {
    packets := [];
    var sent, more := 0, true;
    while more
      invariant 0 <= sent <= |data|
      invariant packets != [] && more ==> sent < |data|
      invariant packets == [] ==> sent == 0 && more
      invariant Joined(packets) == data[..sent]
      invariant forall k | 0 <= k < |packets| :: packets[k].dataLen == |data|
      invariant forall k | 0 <= k < |packets| - 1 :: |packets[k].data| == limit
      invariant packets != [] ==> |packets[|packets| - 1].data| <= limit
      invariant packets != [] && more ==> |packets[|packets| - 1].data| == limit
      invariant packets != [] && data != [] ==> packets[|packets| - 1].data != []
      invariant !more ==> sent == |data| && packets != []
      decreases |data| - sent, more
    {
      var len := if limit < |data| - sent then limit else |data| - sent;
      var packet := Packet(|data|, data[sent..sent + len]);
      assert data[..sent + len] == data[..sent] + data[sent..sent + len];
      assert (packets + [packet])[..|packets|] == packets;
      packets := packets + [packet];
      sent := sent + len;
      more := sent < |data|;
    }
    assert data[..sent] == data;
  }

  /** The receiving loop appends what arrives. */
  method Reassemble(packets: seq<Packet>) returns (data: Bytes)
    ensures data == Joined(packets)
  {
    data := [];
    for k := 0 to |packets|
      invariant data == Joined(packets[..k])
    {
      assert packets[..k + 1][..k] == packets[..k];
      data := data + packets[k].data;
    }
    assert packets[..|packets|] == packets;
  }

  /** Byte for byte, whatever the payload and the limit. */
  method SendAndReceive(data: Bytes, limit: nat) returns (received: Bytes)
    requires limit > 0
    ensures received == data
  {
    var packets := BuildPackets(data, limit);
    received := Reassemble(packets);
  }

  lemma {:induction false} JoinedLength(packets: seq<Packet>, limit: nat)
    requires packets != [] && forall k | 0 <= k < |packets| - 1 :: |packets[k].data| == limit
    ensures |Joined(packets)| == (|packets| - 1) * limit + |packets[|packets| - 1].data|
  {
    var init := packets[..|packets| - 1];
    if init == [] {
      assert Joined(init) == [];
    } else {
      JoinedLength(init, limit);
      assert (|packets| - 2) * limit + limit == (|packets| - 1) * limit;
    }
  }

  /** The number of packets is the payload length over the limit, rounded up, and at least one. */
  lemma PacketCount(data: Bytes, limit: nat, packets: seq<Packet>)
    requires limit > 0 && Splits(data, limit, packets)
    ensures |packets| == if data == [] then 1 else Ceil(|data|, limit)
  {
    JoinedLength(packets, limit);
    var m, last := |packets| - 1, |packets[|packets| - 1].data|;
    if data == [] {
      if m > 0 { Apart(0, m, limit); }
    } else {
      assert (m + 1) * limit == m * limit + limit;
      QuotientIs(|data| + limit - 1, limit, m + 1);
    }
  }
}
