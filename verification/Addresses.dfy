/** Which addresses a site's server code may reach. */
module Addresses {
  import opened Wrappers
  import opened Text
  import opened Bits

  // ---------------------------------------------------------------- dotted quads

  predicate IsOctetToken(s: string) {
    1 <= |s| <= 3 && forall i :: 0 <= i < |s| ==> IsDigit(s[i])
  }

  function DigitValue(c: char): (d: nat)
    requires IsDigit(c)
    ensures d < 10
  {
    (c - '0') as nat
  }

  /** Number(token), for a token of digits. */
  function DecimalValue(s: string): nat
    requires forall i :: 0 <= i < |s| ==> IsDigit(s[i])
  {
    if s == "" then 0 else 10 * DecimalValue(s[..|s| - 1]) + DigitValue(s[|s| - 1])
  }

  predicate AllOctets(tokens: seq<string>) {
    forall i :: 0 <= i < |tokens| ==> IsOctetToken(tokens[i])
  }

  function OctetValues(tokens: seq<string>): (octets: seq<nat>)
    requires AllOctets(tokens)
    ensures |octets| == |tokens| && forall i :: 0 <= i < |octets| ==> octets[i] == DecimalValue(tokens[i])
  {
    seq(|tokens|, i requires 0 <= i < |tokens| => DecimalValue(tokens[i]))
  }

  /** The octets of a dotted quad; none for any other host. */
  function Ipv4(host: string): Option<seq<nat>> {
    var parts := Split(host, '.');
    if |parts| != 4 || !AllOctets(parts) then None
    else
      var octets := OctetValues(parts);
      if forall i :: 0 <= i < |octets| ==> octets[i] <= 255 then Some(octets) else None
  }

  /** A host is read as some octets exactly when it is four tokens of one to three digits, joined by dots, of
      those values, none above 255. */
  lemma Ipv4Iff(host: string, octets: seq<nat>)
    ensures Ipv4(host) == Some(octets) <==>
      exists tokens :: (|tokens| == 4 && AllOctets(tokens) && Join(tokens, ".") == host && OctetValues(tokens) == octets
                        && forall i :: 0 <= i < |octets| ==> octets[i] <= 255)
  {
    if Ipv4(host) == Some(octets) {
      JoinOfSplit(host, '.');
      assert Join(Split(host, '.'), ".") == host;
    }
    if tokens :| |tokens| == 4 && AllOctets(tokens) && Join(tokens, ".") == host && OctetValues(tokens) == octets
                 && forall i :: 0 <= i < |octets| ==> octets[i] <= 255 {
      SplitOfJoin(tokens, '.');
    }
  }

  lemma {:induction false} DecimalRoundTrip(n: nat)
    ensures DecimalValue(Decimal(n)) == n
    ensures |Decimal(n)| == if n < 10 then 1 else 1 + |Decimal(n / 10)|
  {
    if n < 10 {
      assert Decimal(n)[..0] == "";
    } else {
      DecimalRoundTrip(n / 10);
      var s := Decimal(n);
      assert s[..|s| - 1] == Decimal(n / 10);
    }
  }

  function Dotted(octets: seq<nat>): string {
    Join(seq(|octets|, i requires 0 <= i < |octets| => Decimal(octets[i])), ".")
  }

  /** Printing four octets and reading them back gives the same four. */
  lemma Ipv4InvertsDotted(octets: seq<nat>)
    requires |octets| == 4 && forall i :: 0 <= i < 4 ==> octets[i] <= 255
    ensures Ipv4(Dotted(octets)) == Some(octets)
  {
    var tokens := seq(|octets|, i requires 0 <= i < |octets| => Decimal(octets[i]));
    forall i | 0 <= i < 4 ensures IsOctetToken(tokens[i]) && DecimalValue(tokens[i]) == octets[i] {
      DecimalRoundTrip(octets[i]);
      DecimalRoundTrip(octets[i] / 10);
      DecimalRoundTrip(octets[i] / 100);
    }
    assert OctetValues(tokens) == octets;
    Ipv4Iff(Dotted(octets), octets);
  }

  // ---------------------------------------------------------------- public IPv4

  /** A block as the source lists it: base octets and prefix length. */
  datatype Block = Block(first: nat, second: nat, third: nat, bits: nat)

  const PRIVATE_V4: seq<Block> := [
    Block(0, 0, 0, 8), Block(10, 0, 0, 8), Block(100, 64, 0, 10), Block(127, 0, 0, 8), Block(169, 254, 0, 16),
    Block(172, 16, 0, 12), Block(192, 0, 0, 24), Block(192, 0, 2, 24), Block(192, 168, 0, 16), Block(198, 18, 0, 15),
    Block(198, 51, 100, 24), Block(203, 0, 113, 24), Block(224, 0, 0, 4), Block(240, 0, 0, 4)]

  function Word(a: nat, b: nat, c: nat): int {
    ToUint32(ShiftLeft(a, 24)) + ShiftLeft(b, 16) + ShiftLeft(c, 8)
  }

  /** The test of one block: the address shares its prefix. */
  predicate InBlock(a: nat, b: nat, c: nat, block: Block)
    requires block.bits <= 32
  {
    SamePrefix(Word(a, b, c), Word(block.first, block.second, block.third), block.bits)
  }

  /** An address as a number. */
  function Quad(a: nat, b: nat, c: nat, d: nat): int {
    a * 0x100_0000 + b * 0x1_0000 + c * 0x100 + d
  }

  /** The first and last address of each block of the source's list. */
  const BLOCK_RANGES: seq<(int, int)> := [
    (Quad(0, 0, 0, 0), Quad(0, 255, 255, 255)), (Quad(10, 0, 0, 0), Quad(10, 255, 255, 255)),
    (Quad(100, 64, 0, 0), Quad(100, 127, 255, 255)), (Quad(127, 0, 0, 0), Quad(127, 255, 255, 255)),
    (Quad(169, 254, 0, 0), Quad(169, 254, 255, 255)), (Quad(172, 16, 0, 0), Quad(172, 31, 255, 255)),
    (Quad(192, 0, 0, 0), Quad(192, 0, 0, 255)), (Quad(192, 0, 2, 0), Quad(192, 0, 2, 255)),
    (Quad(192, 168, 0, 0), Quad(192, 168, 255, 255)), (Quad(198, 18, 0, 0), Quad(198, 19, 255, 255)),
    (Quad(198, 51, 100, 0), Quad(198, 51, 100, 255)), (Quad(203, 0, 113, 0), Quad(203, 0, 113, 255)),
    (Quad(224, 0, 0, 0), Quad(239, 255, 255, 255)), (Quad(240, 0, 0, 0), Quad(255, 255, 255, 255))]

  lemma PowersUsed()
    ensures Pow2(8) == 0x100 && Pow2(16) == 0x1_0000 && Pow2(17) == 0x2_0000 && Pow2(20) == 0x10_0000
    ensures Pow2(22) == 0x40_0000 && Pow2(24) == 0x100_0000 && Pow2(28) == 0x1000_0000
  {
    assert Pow2(4) == 16;
    assert Pow2(12) == 0x1000;
  }

  lemma WordIsQuad(a: nat, b: nat, c: nat)
    requires a < 256 && b < 256 && c < 256
    ensures Word(a, b, c) == Quad(a, b, c, 0)
  {
    hide ShiftLeft, ToInt32, ToUint32, Pow2;
    PowersUsed();
    OctetShifted(a, 24, 0x100_0000);
    OctetShifted(b, 16, 0x1_0000);
    OctetShifted(c, 8, 0x100);
    SmallIsItself(b * 0x1_0000);
    SmallIsItself(c * 0x100);
    PatternRoundTrip(a * 0x100_0000);
  }

  lemma OctetShifted(octet: nat, n: nat, power: nat)
    requires octet < 256 && n < 32 && power == Pow2(n)
    ensures ShiftLeft(octet, n) == ToInt32(octet * power)
  {
    hide Pow2, ToInt32;
    SmallIsItself(octet);
  }

  lemma SmallIsItself(x: nat)
    requires x < 0x8000_0000
    ensures ToInt32(x) == x
  {
  }

  /** The last octet never decides about a range whose ends are whole thirds. */
  lemma LastOctetIsFree(value: int, first: int, size: int, d: nat)
    requires value % 0x100 == 0 && first % 0x100 == 0 && size % 0x100 == 0 && d < 0x100
    ensures first <= value < first + size <==> first <= value + d < first + size
  {
  }

  lemma QuadIsWhole(a: nat, b: nat, c: nat)
    requires a < 256 && b < 256 && c < 256
    ensures Quad(a, b, c, 0) % 0x100 == 0 && 0 <= Quad(a, b, c, 0) < TWO_32
  {
  }

  /** The range is the block's addresses: it starts at the base, a multiple of the block's size. */
  predicate Stands(block: Block, range: (int, int)) {
    && block.first < 256 && block.second < 256 && block.third < 256 && 1 <= block.bits <= 24
    && Pow2(32 - block.bits) % 0x100 == 0
    && range.0 == Quad(block.first, block.second, block.third, 0) && range.0 % Pow2(32 - block.bits) == 0
    && range.1 == range.0 + Pow2(32 - block.bits) - 1
  }

  /** One block's test, against the range it stands for. */
  lemma BlockIsRange(a: nat, b: nat, c: nat, d: nat, block: Block, range: (int, int))
    requires a < 256 && b < 256 && c < 256 && d < 256
    requires Stands(block, range)
    ensures InBlock(a, b, c, block) <==> range.0 <= Quad(a, b, c, d) <= range.1
  {
    hide Word, SamePrefix, Pow2;
    var value := Quad(a, b, c, 0);
    WordIsQuad(a, b, c);
    WordIsQuad(block.first, block.second, block.third);
    QuadIsWhole(a, b, c);
    QuadIsWhole(block.first, block.second, block.third);
    SamePrefixIsInterval(value, range.0, block.bits);
    LastOctetIsFree(value, range.0, Pow2(32 - block.bits), d);
  }

  lemma StandsBySize(block: Block, range: (int, int), size: nat, steps: int)
    requires block.first < 256 && block.second < 256 && block.third < 256 && 1 <= block.bits <= 24
    requires Pow2(32 - block.bits) == size && size > 0 && size % 0x100 == 0
    requires range.0 == Quad(block.first, block.second, block.third, 0) == size * steps && range.1 == range.0 + size - 1
    ensures Stands(block, range)
  {
    DivMod(range.0, size, steps, 0);
  }

  /** All addresses with one first octet. */
  lemma FirstOctetStands(first: nat)
    requires first < 256
    ensures Stands(Block(first, 0, 0, 8), (Quad(first, 0, 0, 0), Quad(first, 255, 255, 255)))
  {
    hide Pow2, Stands;
    PowersUsed();
    StandsBySize(Block(first, 0, 0, 8), (Quad(first, 0, 0, 0), Quad(first, 255, 255, 255)), 0x100_0000, first);
  }

  lemma SharedAndLinkLocal()
    ensures Stands(Block(100, 64, 0, 10), (Quad(100, 64, 0, 0), Quad(100, 127, 255, 255)))
    ensures Stands(Block(169, 254, 0, 16), (Quad(169, 254, 0, 0), Quad(169, 254, 255, 255)))
  {
    hide Pow2, Stands;
    PowersUsed();
    StandsBySize(Block(100, 64, 0, 10), (Quad(100, 64, 0, 0), Quad(100, 127, 255, 255)), 0x40_0000, 401);
    StandsBySize(Block(169, 254, 0, 16), (Quad(169, 254, 0, 0), Quad(169, 254, 255, 255)), 0x1_0000, 43518);
  }

  lemma PrivateAndProtocol()
    ensures Stands(Block(172, 16, 0, 12), (Quad(172, 16, 0, 0), Quad(172, 31, 255, 255)))
    ensures Stands(Block(192, 0, 0, 24), (Quad(192, 0, 0, 0), Quad(192, 0, 0, 255)))
  {
    hide Pow2, Stands;
    PowersUsed();
    StandsBySize(Block(172, 16, 0, 12), (Quad(172, 16, 0, 0), Quad(172, 31, 255, 255)), 0x10_0000, 2753);
    StandsBySize(Block(192, 0, 0, 24), (Quad(192, 0, 0, 0), Quad(192, 0, 0, 255)), 0x100, 12582912);
  }

  lemma PrivateAndBenchmark()
    ensures Stands(Block(192, 0, 2, 24), (Quad(192, 0, 2, 0), Quad(192, 0, 2, 255)))
    ensures Stands(Block(192, 168, 0, 16), (Quad(192, 168, 0, 0), Quad(192, 168, 255, 255)))
    ensures Stands(Block(198, 18, 0, 15), (Quad(198, 18, 0, 0), Quad(198, 19, 255, 255)))
  {
    hide Pow2, Stands;
    PowersUsed();
    StandsBySize(Block(192, 0, 2, 24), (Quad(192, 0, 2, 0), Quad(192, 0, 2, 255)), 0x100, 12582914);
    StandsBySize(Block(192, 168, 0, 16), (Quad(192, 168, 0, 0), Quad(192, 168, 255, 255)), 0x1_0000, 49320);
    StandsBySize(Block(198, 18, 0, 15), (Quad(198, 18, 0, 0), Quad(198, 19, 255, 255)), 0x2_0000, 25353);
  }

  lemma DocumentationRanges()
    ensures Stands(Block(198, 51, 100, 24), (Quad(198, 51, 100, 0), Quad(198, 51, 100, 255)))
    ensures Stands(Block(203, 0, 113, 24), (Quad(203, 0, 113, 0), Quad(203, 0, 113, 255)))
  {
    hide Pow2, Stands;
    PowersUsed();
    StandsBySize(Block(198, 51, 100, 24), (Quad(198, 51, 100, 0), Quad(198, 51, 100, 255)), 0x100, 12989284);
    StandsBySize(Block(203, 0, 113, 24), (Quad(203, 0, 113, 0), Quad(203, 0, 113, 255)), 0x100, 13303921);
  }

  lemma MulticastAndReserved()
    ensures Stands(Block(224, 0, 0, 4), (Quad(224, 0, 0, 0), Quad(239, 255, 255, 255)))
    ensures Stands(Block(240, 0, 0, 4), (Quad(240, 0, 0, 0), Quad(255, 255, 255, 255)))
  {
    hide Pow2, Stands;
    PowersUsed();
    StandsBySize(Block(224, 0, 0, 4), (Quad(224, 0, 0, 0), Quad(239, 255, 255, 255)), 0x1000_0000, 14);
    StandsBySize(Block(240, 0, 0, 4), (Quad(240, 0, 0, 0), Quad(255, 255, 255, 255)), 0x1000_0000, 15);
  }

  /** The blocks of the source's list and their ranges go together, one by one. */
  lemma ListsAgree()
    ensures |PRIVATE_V4| == |BLOCK_RANGES| && forall i :: 0 <= i < |PRIVATE_V4| ==> Stands(PRIVATE_V4[i], BLOCK_RANGES[i])
  {
    hide Stands, Quad;
    FirstOctetStands(0);
    FirstOctetStands(10);
    FirstOctetStands(127);
    SharedAndLinkLocal();
    PrivateAndProtocol();
    PrivateAndBenchmark();
    DocumentationRanges();
    MulticastAndReserved();
  }

  predicate Reserved(address: int) {
    exists i :: 0 <= i < |BLOCK_RANGES| && BLOCK_RANGES[i].0 <= address <= BLOCK_RANGES[i].1
  }

  /** No block of the list holds the address. */
  predicate OutsideBlocks(a: nat, b: nat, c: nat) {
    forall i :: 0 <= i < |PRIVATE_V4| ==> PRIVATE_V4[i].bits <= 32 && !InBlock(a, b, c, PRIVATE_V4[i])
  }

  /** For every address, the shift-and-mask tests over the list amount to membership in none of the ranges. */
  lemma OutsideBlocksIffPublic(a: nat, b: nat, c: nat, d: nat)
    requires a < 256 && b < 256 && c < 256 && d < 256
    ensures OutsideBlocks(a, b, c) <==> !Reserved(Quad(a, b, c, d))
  {
    hide Stands, InBlock, Quad;
    ListsAgree();
    forall i | 0 <= i < |PRIVATE_V4|
      ensures InBlock(a, b, c, PRIVATE_V4[i]) <==> BLOCK_RANGES[i].0 <= Quad(a, b, c, d) <= BLOCK_RANGES[i].1
    {
      BlockIsRange(a, b, c, d, PRIVATE_V4[i], BLOCK_RANGES[i]);
    }
  }

  // ---------------------------------------------------------------- against the standard

  /** An entry of the IPv4 special-purpose address registry; global entries are reachable over the internet. */
  datatype Special = Special(first: int, last: int, global: bool)

  /** Section 2.2.2 of RFC 6890, table by table. */
  const SPECIAL_PURPOSE: seq<Special> := [
    Special(Quad(0, 0, 0, 0), Quad(0, 255, 255, 255), false),
    Special(Quad(10, 0, 0, 0), Quad(10, 255, 255, 255), false),
    Special(Quad(100, 64, 0, 0), Quad(100, 127, 255, 255), false),
    Special(Quad(127, 0, 0, 0), Quad(127, 255, 255, 255), false),
    Special(Quad(169, 254, 0, 0), Quad(169, 254, 255, 255), false),
    Special(Quad(172, 16, 0, 0), Quad(172, 31, 255, 255), false),
    Special(Quad(192, 0, 0, 0), Quad(192, 0, 0, 255), false),
    Special(Quad(192, 0, 0, 0), Quad(192, 0, 0, 7), false),
    Special(Quad(192, 0, 2, 0), Quad(192, 0, 2, 255), false),
    Special(Quad(192, 88, 99, 0), Quad(192, 88, 99, 255), true),
    Special(Quad(192, 168, 0, 0), Quad(192, 168, 255, 255), false),
    Special(Quad(198, 18, 0, 0), Quad(198, 19, 255, 255), false),
    Special(Quad(198, 51, 100, 0), Quad(198, 51, 100, 255), false),
    Special(Quad(203, 0, 113, 0), Quad(203, 0, 113, 255), false),
    Special(Quad(240, 0, 0, 0), Quad(255, 255, 255, 255), false),
    Special(Quad(255, 255, 255, 255), Quad(255, 255, 255, 255), false)]

  predicate Holds(entry: Special, address: int) {
    entry.first <= address <= entry.last
  }

  predicate NotGlobal(address: int) {
    exists entry :: entry in SPECIAL_PURPOSE && Holds(entry, address) && !entry.global
  }

  predicate Multicast(address: int) {
    Quad(224, 0, 0, 0) <= address <= Quad(239, 255, 255, 255)
  }

  /** The block whose range takes in an entry that is not global. */
  function BlockFor(i: nat): (k: nat)
    requires i < 16 && i != 9
    ensures k < 14 && k != 12
  {
    if i <= 6 then i else if i <= 8 then i - 1 else if i <= 13 then i - 2 else 13
  }

  lemma NestedEntries()
    ensures Quad(192, 0, 0, 7) <= Quad(192, 0, 0, 255) && Quad(240, 0, 0, 0) <= Quad(255, 255, 255, 255)
  {
  }

  lemma EntryNotGlobal(address: int) returns (i: nat)
    requires NotGlobal(address)
    ensures i < 16 == |SPECIAL_PURPOSE| && i != 9 && Holds(SPECIAL_PURPOSE[i], address)
  {
    hide Quad, Holds;
    var entry :| entry in SPECIAL_PURPOSE && Holds(entry, address) && !entry.global;
    i :| 0 <= i < |SPECIAL_PURPOSE| && SPECIAL_PURPOSE[i] == entry;
  }

  lemma EntryInBlock(i: nat, address: int)
    requires i < 16 == |SPECIAL_PURPOSE| && i != 9 && Holds(SPECIAL_PURPOSE[i], address)
    ensures Reserved(address)
  {
    hide Quad;
    NestedEntries();
    assert BLOCK_RANGES[BlockFor(i)].0 <= address <= BLOCK_RANGES[BlockFor(i)].1;
  }

  lemma BlockInEntry(k: nat, address: int)
    requires k < 14 == |BLOCK_RANGES| && BLOCK_RANGES[k].0 <= address <= BLOCK_RANGES[k].1
    ensures NotGlobal(address) || Multicast(address)
  {
    hide Quad;
    if k != 12 {
      var i := if k <= 6 then k else if k == 7 then 8 else if k <= 11 then k + 2 else 14;
      assert SPECIAL_PURPOSE[i] in SPECIAL_PURPOSE && Holds(SPECIAL_PURPOSE[i], address);
    }
  }

  /** The source's ranges are exactly the entries that are not global, and multicast. */
  lemma ReservedIffNotGlobal(address: int)
    ensures Reserved(address) <==> NotGlobal(address) || Multicast(address)
  {
    hide Quad, NotGlobal, Holds;
    if NotGlobal(address) {
      var i := EntryNotGlobal(address);
      EntryInBlock(i, address);
    }
    if Multicast(address) { assert BLOCK_RANGES[12].0 <= address <= BLOCK_RANGES[12].1; }
    if Reserved(address) {
      var k :| 0 <= k < |BLOCK_RANGES| && BLOCK_RANGES[k].0 <= address <= BLOCK_RANGES[k].1;
      BlockInEntry(k, address);
    }
  }

  /** What the list lets through: an address passes exactly when the registry has it in no entry that is not global,
      and it is no multicast address. */
  lemma PublicIffGlobal(a: nat, b: nat, c: nat, d: nat)
    requires a < 256 && b < 256 && c < 256 && d < 256
    ensures OutsideBlocks(a, b, c) <==> !NotGlobal(Quad(a, b, c, d)) && !Multicast(Quad(a, b, c, d))
  {
    hide OutsideBlocks, Reserved, NotGlobal, Multicast, Quad;
    OutsideBlocksIffPublic(a, b, c, d);
    ReservedIffNotGlobal(Quad(a, b, c, d));
  }

  lemma AnycastIsApart(d: nat)
    requires d < 256
    ensures Quad(192, 88, 99, 0) <= Quad(192, 88, 99, d) <= Quad(192, 88, 99, 255)
    ensures Quad(0, 255, 255, 255) < Quad(192, 88, 99, d)
    ensures Quad(10, 255, 255, 255) < Quad(192, 88, 99, d)
    ensures Quad(100, 127, 255, 255) < Quad(192, 88, 99, d)
    ensures Quad(127, 255, 255, 255) < Quad(192, 88, 99, d)
    ensures Quad(169, 254, 255, 255) < Quad(192, 88, 99, d)
    ensures Quad(172, 31, 255, 255) < Quad(192, 88, 99, d)
    ensures Quad(192, 0, 0, 255) < Quad(192, 88, 99, d)
    ensures Quad(192, 0, 2, 255) < Quad(192, 88, 99, d)
    ensures Quad(192, 88, 99, d) < Quad(192, 168, 0, 0)
    ensures Quad(192, 88, 99, d) < Quad(198, 18, 0, 0)
    ensures Quad(192, 88, 99, d) < Quad(198, 51, 100, 0)
    ensures Quad(192, 88, 99, d) < Quad(203, 0, 113, 0)
    ensures Quad(192, 88, 99, d) < Quad(224, 0, 0, 0)
    ensures Quad(192, 88, 99, d) < Quad(240, 0, 0, 0)
  {
  }

  /** So the one global entry, 6to4 relay anycast, passes whole. */
  lemma RelayAnycastPasses(d: nat)
    requires d < 256
    ensures
      var entry := Special(Quad(192, 88, 99, 0), Quad(192, 88, 99, 255), true);
      entry in SPECIAL_PURPOSE && Holds(entry, Quad(192, 88, 99, d))
    ensures OutsideBlocks(192, 88, 99)
  {
    hide OutsideBlocks, Quad;
    AnycastIsApart(d);
    OutsideBlocksIffPublic(192, 88, 99, d);
  }

  /** publicIPv4: the walk over the list, for the octets of any address. */
  method PublicIpv4(octets: seq<nat>) returns (public: bool)
    requires |octets| == 4 && forall i :: 0 <= i < 4 ==> octets[i] < 256
    ensures public <==> OutsideBlocks(octets[0], octets[1], octets[2])
    ensures
      var address := Quad(octets[0], octets[1], octets[2], octets[3]);
      public <==> !NotGlobal(address) && !Multicast(address)
  {
    hide Stands, InBlock, Quad, NotGlobal, Multicast;
    ListsAgree();
    PublicIffGlobal(octets[0], octets[1], octets[2], octets[3]);
    var i := 0;
    while i < |PRIVATE_V4|
      invariant 0 <= i <= |PRIVATE_V4|
      invariant forall k :: 0 <= k < i ==> !InBlock(octets[0], octets[1], octets[2], PRIVATE_V4[k])
    {
      if InBlock(octets[0], octets[1], octets[2], PRIVATE_V4[i]) { return false; }
      i := i + 1;
    }
    return true;
  }
}
