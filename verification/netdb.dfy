/**
 * The constants of <sys/socket.h>, <netinet/in.h> and <netdb.h> the program
 * uses, with their Linux/glibc values, and the three name tables it spells out
 * in main.c.
 */
module Netdb {
  import opened Text
  import opened Tables

  const AF_UNSPEC: int := 0
  const AF_INET: int := 2
  const AF_INET6: int := 10

  const SOCK_STREAM: int := 1
  const SOCK_DGRAM: int := 2
  const SOCK_RAW: int := 3
  const SOCK_SEQPACKET: int := 5

  const IPPROTO_IP: int := 0
  const IPPROTO_ICMP: int := 1
  const IPPROTO_TCP: int := 6
  const IPPROTO_UDP: int := 17
  const IPPROTO_IPV6: int := 41
  const IPPROTO_RAW: int := 255

  const AI_PASSIVE: bv32 := 0x0001
  const AI_CANONNAME: bv32 := 0x0002
  const AI_NUMERICHOST: bv32 := 0x0004
  const AI_V4MAPPED: bv32 := 0x0008
  const AI_ALL: bv32 := 0x0010
  const AI_ADDRCONFIG: bv32 := 0x0020
  const AI_NUMERICSERV: bv32 := 0x0400

  /** The names `-f` accepts, in the order main.c tests them. */
  const FlagTable: seq<Entry<bv32>> := [
    Entry("V4MAPPED", AI_V4MAPPED),
    Entry("ADDRCONFIG", AI_ADDRCONFIG),
    Entry("ALL", AI_ALL),
    Entry("CANONNAME", AI_CANONNAME),
    Entry("NUMERICHOST", AI_NUMERICHOST),
    Entry("NUMERICSERV", AI_NUMERICSERV),
    Entry("PASSIVE", AI_PASSIVE)
  ]

  /** The names `-t` accepts and the report prints for a socket type. */
  const TypeTable: seq<Entry<int>> := [
    Entry("STREAM", SOCK_STREAM),
    Entry("DGRAM", SOCK_DGRAM),
    Entry("RAW", SOCK_RAW),
    Entry("SEQPACKET", SOCK_SEQPACKET)
  ]

  /**
   * The names `-P` accepts and the report prints for a protocol, in the order
   * of the option tests; the report's `switch` lists the same six pairs.
   */
  const ProtoTable: seq<Entry<int>> := [
    Entry("IP", IPPROTO_IP),
    Entry("IPV6", IPPROTO_IPV6),
    Entry("ICMP", IPPROTO_ICMP),
    Entry("TCP", IPPROTO_TCP),
    Entry("UDP", IPPROTO_UDP),
    Entry("RAW", IPPROTO_RAW)
  ]

  /** A single bit of a 32-bit flag word. */
  predicate IsSingleBit(b: bv32)
  {
    b != 0 && b & (b - 1) == 0
  }

  /** Each flag is one bit and no two flags share it. */
  lemma FlagBitsDisjoint()
    ensures forall i :: 0 <= i < |FlagTable| ==> IsSingleBit(FlagTable[i].value)
    ensures forall i, j :: 0 <= i < j < |FlagTable| ==> FlagTable[i].value & FlagTable[j].value == 0
  {
  }

  lemma FlagNamesCanonical()
    ensures forall i :: 0 <= i < |FlagTable| ==> IsCanonicalName(FlagTable[i].name)
  {
    assert IsCanonicalName("V4MAPPED") && IsCanonicalName("ADDRCONFIG") && IsCanonicalName("ALL");
    assert IsCanonicalName("CANONNAME") && IsCanonicalName("NUMERICHOST");
    assert IsCanonicalName("NUMERICSERV") && IsCanonicalName("PASSIVE");
  }

  lemma FlagNamesDistinct()
    ensures forall i, j :: 0 <= i < j < |FlagTable| ==> FlagTable[i].name != FlagTable[j].name
  {
    assert "NUMERICHOST"[7] != "NUMERICSERV"[7];
  }

  lemma FlagTableWellFormed()
    ensures WellFormed(FlagTable)
  {
    FlagNamesCanonical();
    FlagNamesDistinct();
  }

  lemma TypeTableWellFormed()
    ensures WellFormed(TypeTable)
  {
  }

  lemma ProtoTableWellFormed()
    ensures WellFormed(ProtoTable)
  {
    assert "IPV6"[1] != "ICMP"[1];
    assert "TCP"[0] != "UDP"[0] && "UDP"[0] != "RAW"[0] && "RAW"[0] != "TCP"[0];
  }

  /** The three tables have canonical, distinct names and distinct values. */
  lemma TablesWellFormed()
    ensures WellFormed(FlagTable) && WellFormed(TypeTable) && WellFormed(ProtoTable)
  {
    FlagTableWellFormed();
    TypeTableWellFormed();
    ProtoTableWellFormed();
  }
}
