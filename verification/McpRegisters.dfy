/** How the MCP2515 driver lays a CAN frame out in the registers of a buffer. */
module McpRegisters {
  import opened Widths

  type Identifier29 = x: int | 0 <= x < 0x2000_0000

  /** A frame of at most eight bytes; a standard identifier has eleven bits. */
  datatype CanFrame = CanFrame(identifier: Identifier29, isExtended: bool, data: seq<u8>)

  predicate WellFormed(f: CanFrame) { |f.data| <= 8 && (!f.isExtended ==> f.identifier < 0x800) }

  /** SIDH, SIDL, EID8 and EID0. The last two are left as they were in a standard frame. */
  function IdentifierBytes(f: CanFrame, left: (u8, u8)): (bytes: seq<u8>)
    ensures |bytes| == 4
  {
    var id := f.identifier;
    if f.isExtended then
      [(id / 0x20_0000) % 0x100, id / 0x4_0000 % 8 * 0x20 + 0x08 + (id / 0x1_0000) % 4, (id / 0x100) % 0x100, id % 0x100]
    else [(id / 8) % 0x100, id % 8 * 0x20, left.0, left.1]
  }

  /** The registers from SIDH on: four identifier bytes, the length, the data. */
  function Registers(f: CanFrame, left: (u8, u8)): (bytes: seq<u8>)
    requires |f.data| <= 8
    ensures |bytes| == 5 + |f.data|
  {
    IdentifierBytes(f, left) + [|f.data|] + f.data
  }

  /** What `read_frame` makes of the registers, given whether the frame object it fills was
      marked as extended before: the mark is set but never cleared. */
  function ReadRegisters(bytes: seq<u8>, wasExtended: bool): CanFrame
    requires |bytes| >= 5 && 5 + bytes[4] as int % 16 <= |bytes|
  {
    var standard := bytes[0] as int * 8 + bytes[1] as int / 0x20;
    var extended := bytes[1] as int / 8 % 2 == 1;
    var id := if extended
              then ((standard * 4 + bytes[1] as int % 4) * 0x100 + bytes[2] as int) * 0x100 + bytes[3] as int
              else standard;
    CanFrame(id, extended || wasExtended, bytes[5..5 + bytes[4] as int % 16])
  }

  /** The bytes of an extended identifier determine it. */
  lemma ExtendedIdentifier(id: Identifier29)
    ensures var sidl := id / 0x4_0000 % 8 * 0x20 + 0x08 + (id / 0x1_0000) % 4;
            && sidl / 0x20 == id / 0x4_0000 % 8 && sidl % 4 == id / 0x1_0000 % 4 && sidl / 8 % 2 == 1
    ensures id == (((id / 0x20_0000 * 8 + id / 0x4_0000 % 8) * 4 + id / 0x1_0000 % 4) * 0x100 + id / 0x100 % 0x100) * 0x100 + id % 0x100
    ensures id / 0x20_0000 < 0x100
  {
    assert id / 0x20_0000 == id / 0x4_0000 / 8;
    assert id / 0x4_0000 == id / 0x1_0000 / 4;
    assert id / 0x1_0000 == id / 0x100 / 0x100;
  }

  lemma ReadsData(f: CanFrame, left: (u8, u8), wasExtended: bool)
    requires |f.data| <= 8
    ensures var bytes := Registers(f, left);
            && bytes[4] == |f.data| == bytes[4] as int % 16
            && bytes[5..5 + |f.data|] == f.data
            && bytes[..4] == IdentifierBytes(f, left)
  {
  }

  lemma StandardIdentifier(id: Identifier29)
    requires id < 0x800
    ensures id == id / 8 % 0x100 * 8 + id % 8 * 0x20 / 0x20 && id % 8 * 0x20 / 8 % 2 == 0
  {
    assert id % 8 * 0x20 == 8 * (id % 8 * 4);
  }

  /** Reading what was written gives the frame back exactly when the frame is extended or
      the object read into was not marked as extended by an earlier frame. */
  lemma RoundTripIff(f: CanFrame, left: (u8, u8), wasExtended: bool)
    requires WellFormed(f)
    ensures |f.data| == Registers(f, left)[4] as int % 16
    ensures ReadRegisters(Registers(f, left), wasExtended) == f <==> f.isExtended || !wasExtended
  {
    ReadsData(f, left, wasExtended);
    var bytes := Registers(f, left);
    var ids := IdentifierBytes(f, left);
    assert bytes[0] == ids[0] && bytes[1] == ids[1] && bytes[2] == ids[2] && bytes[3] == ids[3];
    hide Registers;
    if f.isExtended {
      ExtendedIdentifier(f.identifier);
    } else {
      StandardIdentifier(f.identifier);
    }
  }
}
