/** The flash parts that the driver knows. */
module EpcsParts {
  import opened FlashChip

  /** How a part is recognised: by its electronic signature, by its whole device id, or by the last
      byte of the device id. */
  datatype Marker = Signature(value: nat) | DeviceId(value: nat) | Density(value: nat)

  datatype Part = Part(name: string, megabits: nat, blocks: nat, blockSize: nat, marker: Marker)

  /** Earlier ones come first: an EPCQ128 has the density byte of an EPCS128. */
  const PARTS: seq<Part> := [
    Part("EPCS64", 64, 128, 0x1_0000, Signature(0x16)),
    Part("EPCS16", 16, 32, 0x1_0000, Signature(0x14)),
    Part("EPCS8", 8, 16, 0x1_0000, Signature(0x13)),
    Part("EPCS4", 4, 8, 0x1_0000, Signature(0x12)),
    Part("EPCS1", 1, 4, 0x8000, Signature(0x10)),
    Part("EPCQ16", 16, 32, 0x1_0000, DeviceId(0x20BA15)),
    Part("EPCQ32", 32, 64, 0x1_0000, DeviceId(0x20BA16)),
    Part("EPCQ64", 64, 128, 0x1_0000, DeviceId(0x20BA17)),
    Part("EPCQ128", 128, 256, 0x1_0000, DeviceId(0x20BA18)),
    Part("EPCS128", 128, 64, 0x4_0000, Density(0x18)),
    Part("EPCQ256", 256, 512, 0x1_0000, Density(0x19)),
    Part("EPCQ512", 512, 1024, 0x1_0000, Density(0x20)),
    Part("EPCQ1024", 1024, 2048, 0x1_0000, Density(0x21))]

  function Size(p: Part): nat { p.megabits * 0x2_0000 }

  predicate Matches(p: Part, signature: Byte, id: nat) {
    match p.marker
    case Signature(v) => signature == v
    case DeviceId(v) => id == v
    case Density(v) => id % 256 == v
  }

  /** `p` is the first part that matches from number `i` on. */
  function FirstMatch(i: nat, signature: Byte, id: nat): (n: nat)
    requires i <= |PARTS|
    ensures i <= n <= |PARTS|
    ensures n < |PARTS| ==> Matches(PARTS[n], signature, id)
    ensures forall j | i <= j < n :: !Matches(PARTS[j], signature, id)
    decreases |PARTS| - i
  {
    if i == |PARTS| || Matches(PARTS[i], signature, id) then i else FirstMatch(i + 1, signature, id)
  }

  /** The blocks of every part add up to its size, which an `int` holds and 4 address bytes reach. */
  lemma PartsAddUp(i: nat)
    requires i < |PARTS|
    ensures PARTS[i].blocks * PARTS[i].blockSize == Size(PARTS[i])
    ensures 0 < PARTS[i].blocks && PARTS[i].blockSize % PAGE == 0 && 0 < Size(PARTS[i]) < 0x8000_0000
    ensures Size(PARTS[i]) > Limit(false) <==> i >= 10
  {
  }
}
