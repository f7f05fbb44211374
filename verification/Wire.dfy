/** CAN identifiers, parameter group numbers and the frames handed to the bus. */
module Wire {
  import opened Common

  const GLOBAL := 255
  const NULL := 254

  const PGN_COMMANDED_ADDRESS := 65240

  const PF_TP_CM := 236
  const PF_TP_DT := 235
  const PF_FD_TP_CM := 77
  const PF_FD_TP_DT := 78

  /** The fields of a 29-bit CAN identifier. */
  datatype Header = Header(dataPage: int, format: int, specific: int, source: int, priority: int)

  /** One `send_message` call; the identifier is `CanId` of the header. */
  datatype Frame = Frame(extended: bool, header: Header, data: seq<int>)

  /** A reassembled message that leaves the data link layer. */
  datatype Delivery =
    | ToSubscribers(priority: int, pgn: int, src: int, dst: int, data: seq<int>)
    | CommandedAddress(src: int, dst: int, data: seq<int>)

  datatype Error = IndexError | KeyError | ValueError | RuntimeError

  /** What the ECU constructor passes down; the packet limit is documented as 1-255. */
  datatype Config = Config(maxCmdt: int, rtsInterval: Option<real>, bamInterval: real) {
    predicate Valid() {
      && 1 <= maxCmdt <= 255
      && 0.0 <= bamInterval
      && (rtsInterval.Some? ==> 0.0 <= rtsInterval.value)
    }
  }

  /** One pass of the job thread, and the clock reading taken in it. */
  datatype JobPass = JobPass(now: real, clock: real)

  /** How many of the `left` frames are due in these passes, one a pass. */
  function DueFrames(passes: seq<JobPass>, deadline: real, interval: real, left: nat): (n: nat)
    ensures n <= left
    decreases |passes|
  {
    if passes == [] || left == 0 then 0
    else if deadline > passes[0].now then DueFrames(passes[1..], deadline, interval, left)
    else 1 + DueFrames(passes[1..], passes[0].clock + interval, interval, left - 1)
  }

  /** `ParameterGroupNumber(data_page, pdu_format, pdu_specific).value` */
  function PgnValue(dataPage: int, pduFormat: int, pduSpecific: int): int {
    (dataPage % 2) * 0x1_0000 + (pduFormat % 0x100) * 0x100 + pduSpecific % 0x100
  }

  predicate InRange(h: Header) {
    0 <= h.dataPage < 2 && IsByte(h.format) && IsByte(h.specific) && IsByte(h.source) && 0 <= h.priority < 8
  }

  /** `MessageId(priority=, parameter_group_number=, source_address=).can_id` */
  function CanId(h: Header): int
    requires InRange(h)
  {
    h.priority * 0x400_0000 + PgnValue(h.dataPage, h.format, h.specific) * 0x100 + h.source
  }

  /** `MessageId(can_id=)` followed by `ParameterGroupNumber.from_message_id`. */
  function ParseId(id: int): (h: Header)
    ensures InRange(h)
  {
    var pgn := id / 0x100 % 0x4_0000;
    Header(pgn / 0x1_0000 % 2, pgn / 0x100 % 0x100, pgn % 0x100, id % 0x100, id / 0x400_0000 % 8)
  }

  /** Reading an identifier back yields the fields it was built from. */
  lemma CanIdRoundTrip(h: Header)
    requires InRange(h)
    ensures 0 <= CanId(h) < 0x2000_0000 && ParseId(CanId(h)) == h
  {
    var pgn := PgnValue(h.dataPage, h.format, h.specific);
    PgnFields(h.dataPage, h.format, h.specific);
    IdFields(h.priority, pgn, h.source);
  }

  lemma IdFields(priority: int, pgn: int, source: int)
    requires 0 <= priority < 8 && 0 <= pgn < 0x2_0000 && IsByte(source)
    ensures var id := priority * 0x400_0000 + pgn * 0x100 + source;
            && 0 <= id < 0x2000_0000 && id % 0x100 == source
            && id / 0x100 % 0x4_0000 == pgn && id / 0x400_0000 % 8 == priority
  {
    var id := priority * 0x400_0000 + pgn * 0x100 + source;
    assert id / 0x100 == priority * 0x4_0000 + pgn;
    assert id / 0x400_0000 == priority;
  }

  lemma PgnFields(page: int, format: int, specific: int)
    requires 0 <= page < 2 && IsByte(format) && IsByte(specific)
    ensures var pgn := PgnValue(page, format, specific);
            && 0 <= pgn < 0x2_0000
            && pgn / 0x1_0000 % 2 == page && pgn / 0x100 % 0x100 == format && pgn % 0x100 == specific
  {
    var pgn := page * 0x1_0000 + format * 0x100 + specific;
    assert PgnValue(page, format, specific) == pgn;
    assert pgn / 0x100 == page * 0x100 + format;
    assert pgn / 0x1_0000 == page;
  }

  /** The header of a message with the given PGN fields; `MessageId` masks every field. */
  function MakeHeader(priority: int, dataPage: int, pduFormat: int, pduSpecific: int, source: int): (h: Header)
    ensures InRange(h)
  {
    Header(dataPage % 2, pduFormat % 0x100, pduSpecific % 0x100, source % 0x100, priority % 8)
  }

  /** A peer-to-peer or global frame of the given PDU format. */
  function PduFrame(pduFormat: int, priority: int, src: int, dst: int, data: seq<int>): (f: Frame)
    ensures InRange(f.header)
    ensures IsByte(pduFormat) && IsByte(src) && IsByte(dst) ==>
              f.header == Header(0, pduFormat, dst, src, priority % 8)
  {
    Frame(true, MakeHeader(priority, 0, pduFormat, dst, src), data)
  }

  /** The `n` low bytes of `x`, least significant first. */
  function Bytes(x: int, n: nat): (s: seq<int>)
    ensures |s| == n && IsBytes(s)
    decreases n
  {
    if n == 0 then [] else [x % 0x100] + Bytes(x / 0x100, n - 1)
  }

  /** The number a little-endian byte field stands for. */
  function LittleEndian(s: seq<int>): int {
    if s == [] then 0 else s[0] + 0x100 * LittleEndian(s[1..])
  }

  lemma {:induction false} FieldNonNegative(s: seq<int>)
    requires IsBytes(s)
    ensures LittleEndian(s) >= 0
  {
    if s != [] { FieldNonNegative(s[1..]); }
  }

  function Power256(n: nat): int {
    if n == 0 then 1 else 0x100 * Power256(n - 1)
  }

  lemma {:induction false} FieldRoundTrip(x: int, n: nat)
    requires 0 <= x < Power256(n)
    ensures LittleEndian(Bytes(x, n)) == x
  {
    if n > 0 {
      assert Bytes(x, n)[1..] == Bytes(x / 0x100, n - 1);
      FieldRoundTrip(x / 0x100, n - 1);
    }
  }
}
