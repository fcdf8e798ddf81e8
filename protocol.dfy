// Wire codec of the PeerTalk protocol (src/core/protocol.c): the
// CRC-16/KERMIT checksum and the three framings — discovery packets
// ("PTLK"), stream message headers ("PTMG") and UDP messages ("PTUD").
//
// Bytes are integers 0..255; the CRC register is a 16-bit bit-vector.
// Encoders write into a caller's array and return the C status/length;
// decoders are functions over the received bytes returning the decoded
// record or the error code the C decoder returns.
module Protocol {
  import opened PtTypes
  import opened PtErrors

  const PROTOCOL_VERSION: byte := 1

  const DISC_TYPE_ANNOUNCE: byte := 1
  const DISC_TYPE_QUERY: byte := 2
  const DISC_TYPE_GOODBYE: byte := 3

  const MSG_TYPE_DATA: byte := 1
  const MSG_TYPE_PING: byte := 2
  const MSG_TYPE_PONG: byte := 3
  const MSG_TYPE_DISCONNECT: byte := 4
  const MSG_TYPE_ACK: byte := 5
  const MSG_TYPE_REJECT: byte := 6

  const PEER_NAME_MAX: int := 31
  /** Fixed part of a discovery packet before the name. */
  const DISCOVERY_HEADER_SIZE: int := 12
  /** Smallest discovery packet: header, empty name, CRC. */
  const DISCOVERY_MIN_SIZE: int := 14
  const MESSAGE_HEADER_SIZE: int := 10
  const UDP_HEADER_SIZE: int := 8
  const CRC_SIZE: int := 2

  /** "PTLK", "PTMG" and "PTUD" in ASCII. */
  const MAGIC_DISCOVERY: bytes := [0x50, 0x54, 0x4C, 0x4B]
  const MAGIC_MESSAGE: bytes := [0x50, 0x54, 0x4D, 0x47]
  const MAGIC_UDP: bytes := [0x50, 0x54, 0x55, 0x44]

  // ---------------------------------------------------------------------
  // CRC-16/KERMIT (reflected CCITT polynomial 0x8408, initial value 0)
  // ---------------------------------------------------------------------

  /** The 256-entry lookup table of protocol.c, indexed by the low byte. */
  function CrcTable(i: int): (r: bv16)
    requires 0 <= i < 256
  {
    match i
      case 0 => 0x0000
      case 1 => 0x1189
      case 2 => 0x2312
      case 3 => 0x329B
      case 4 => 0x4624
      case 5 => 0x57AD
      case 6 => 0x6536
      case 7 => 0x74BF
      case 8 => 0x8C48
      case 9 => 0x9DC1
      case 10 => 0xAF5A
      case 11 => 0xBED3
      case 12 => 0xCA6C
      case 13 => 0xDBE5
      case 14 => 0xE97E
      case 15 => 0xF8F7
      case 16 => 0x1081
      case 17 => 0x0108
      case 18 => 0x3393
      case 19 => 0x221A
      case 20 => 0x56A5
      case 21 => 0x472C
      case 22 => 0x75B7
      case 23 => 0x643E
      case 24 => 0x9CC9
      case 25 => 0x8D40
      case 26 => 0xBFDB
      case 27 => 0xAE52
      case 28 => 0xDAED
      case 29 => 0xCB64
      case 30 => 0xF9FF
      case 31 => 0xE876
      case 32 => 0x2102
      case 33 => 0x308B
      case 34 => 0x0210
      case 35 => 0x1399
      case 36 => 0x6726
      case 37 => 0x76AF
      case 38 => 0x4434
      case 39 => 0x55BD
      case 40 => 0xAD4A
      case 41 => 0xBCC3
      case 42 => 0x8E58
      case 43 => 0x9FD1
      case 44 => 0xEB6E
      case 45 => 0xFAE7
      case 46 => 0xC87C
      case 47 => 0xD9F5
      case 48 => 0x3183
      case 49 => 0x200A
      case 50 => 0x1291
      case 51 => 0x0318
      case 52 => 0x77A7
      case 53 => 0x662E
      case 54 => 0x54B5
      case 55 => 0x453C
      case 56 => 0xBDCB
      case 57 => 0xAC42
      case 58 => 0x9ED9
      case 59 => 0x8F50
      case 60 => 0xFBEF
      case 61 => 0xEA66
      case 62 => 0xD8FD
      case 63 => 0xC974
      case 64 => 0x4204
      case 65 => 0x538D
      case 66 => 0x6116
      case 67 => 0x709F
      case 68 => 0x0420
      case 69 => 0x15A9
      case 70 => 0x2732
      case 71 => 0x36BB
      case 72 => 0xCE4C
      case 73 => 0xDFC5
      case 74 => 0xED5E
      case 75 => 0xFCD7
      case 76 => 0x8868
      case 77 => 0x99E1
      case 78 => 0xAB7A
      case 79 => 0xBAF3
      case 80 => 0x5285
      case 81 => 0x430C
      case 82 => 0x7197
      case 83 => 0x601E
      case 84 => 0x14A1
      case 85 => 0x0528
      case 86 => 0x37B3
      case 87 => 0x263A
      case 88 => 0xDECD
      case 89 => 0xCF44
      case 90 => 0xFDDF
      case 91 => 0xEC56
      case 92 => 0x98E9
      case 93 => 0x8960
      case 94 => 0xBBFB
      case 95 => 0xAA72
      case 96 => 0x6306
      case 97 => 0x728F
      case 98 => 0x4014
      case 99 => 0x519D
      case 100 => 0x2522
      case 101 => 0x34AB
      case 102 => 0x0630
      case 103 => 0x17B9
      case 104 => 0xEF4E
      case 105 => 0xFEC7
      case 106 => 0xCC5C
      case 107 => 0xDDD5
      case 108 => 0xA96A
      case 109 => 0xB8E3
      case 110 => 0x8A78
      case 111 => 0x9BF1
      case 112 => 0x7387
      case 113 => 0x620E
      case 114 => 0x5095
      case 115 => 0x411C
      case 116 => 0x35A3
      case 117 => 0x242A
      case 118 => 0x16B1
      case 119 => 0x0738
      case 120 => 0xFFCF
      case 121 => 0xEE46
      case 122 => 0xDCDD
      case 123 => 0xCD54
      case 124 => 0xB9EB
      case 125 => 0xA862
      case 126 => 0x9AF9
      case 127 => 0x8B70
      case 128 => 0x8408
      case 129 => 0x9581
      case 130 => 0xA71A
      case 131 => 0xB693
      case 132 => 0xC22C
      case 133 => 0xD3A5
      case 134 => 0xE13E
      case 135 => 0xF0B7
      case 136 => 0x0840
      case 137 => 0x19C9
      case 138 => 0x2B52
      case 139 => 0x3ADB
      case 140 => 0x4E64
      case 141 => 0x5FED
      case 142 => 0x6D76
      case 143 => 0x7CFF
      case 144 => 0x9489
      case 145 => 0x8500
      case 146 => 0xB79B
      case 147 => 0xA612
      case 148 => 0xD2AD
      case 149 => 0xC324
      case 150 => 0xF1BF
      case 151 => 0xE036
      case 152 => 0x18C1
      case 153 => 0x0948
      case 154 => 0x3BD3
      case 155 => 0x2A5A
      case 156 => 0x5EE5
      case 157 => 0x4F6C
      case 158 => 0x7DF7
      case 159 => 0x6C7E
      case 160 => 0xA50A
      case 161 => 0xB483
      case 162 => 0x8618
      case 163 => 0x9791
      case 164 => 0xE32E
      case 165 => 0xF2A7
      case 166 => 0xC03C
      case 167 => 0xD1B5
      case 168 => 0x2942
      case 169 => 0x38CB
      case 170 => 0x0A50
      case 171 => 0x1BD9
      case 172 => 0x6F66
      case 173 => 0x7EEF
      case 174 => 0x4C74
      case 175 => 0x5DFD
      case 176 => 0xB58B
      case 177 => 0xA402
      case 178 => 0x9699
      case 179 => 0x8710
      case 180 => 0xF3AF
      case 181 => 0xE226
      case 182 => 0xD0BD
      case 183 => 0xC134
      case 184 => 0x39C3
      case 185 => 0x284A
      case 186 => 0x1AD1
      case 187 => 0x0B58
      case 188 => 0x7FE7
      case 189 => 0x6E6E
      case 190 => 0x5CF5
      case 191 => 0x4D7C
      case 192 => 0xC60C
      case 193 => 0xD785
      case 194 => 0xE51E
      case 195 => 0xF497
      case 196 => 0x8028
      case 197 => 0x91A1
      case 198 => 0xA33A
      case 199 => 0xB2B3
      case 200 => 0x4A44
      case 201 => 0x5BCD
      case 202 => 0x6956
      case 203 => 0x78DF
      case 204 => 0x0C60
      case 205 => 0x1DE9
      case 206 => 0x2F72
      case 207 => 0x3EFB
      case 208 => 0xD68D
      case 209 => 0xC704
      case 210 => 0xF59F
      case 211 => 0xE416
      case 212 => 0x90A9
      case 213 => 0x8120
      case 214 => 0xB3BB
      case 215 => 0xA232
      case 216 => 0x5AC5
      case 217 => 0x4B4C
      case 218 => 0x79D7
      case 219 => 0x685E
      case 220 => 0x1CE1
      case 221 => 0x0D68
      case 222 => 0x3FF3
      case 223 => 0x2E7A
      case 224 => 0xE70E
      case 225 => 0xF687
      case 226 => 0xC41C
      case 227 => 0xD595
      case 228 => 0xA12A
      case 229 => 0xB0A3
      case 230 => 0x8238
      case 231 => 0x93B1
      case 232 => 0x6B46
      case 233 => 0x7ACF
      case 234 => 0x4854
      case 235 => 0x59DD
      case 236 => 0x2D62
      case 237 => 0x3CEB
      case 238 => 0x0E70
      case 239 => 0x1FF9
      case 240 => 0xF78F
      case 241 => 0xE606
      case 242 => 0xD49D
      case 243 => 0xC514
      case 244 => 0xB1AB
      case 245 => 0xA022
      case 246 => 0x92B9
      case 247 => 0x8330
      case 248 => 0x7BC7
      case 249 => 0x6A4E
      case 250 => 0x58D5
      case 251 => 0x495C
      case 252 => 0x3DE3
      case 253 => 0x2C6A
      case 254 => 0x1EF1
      case _ => 0x0F78
  }

  /** One table-driven step: the register shifts right by a byte and is
      combined with the table entry selected by its low byte XOR the input. */
  function CrcStep(crc: bv16, b: byte): (r: bv16)
  {
    (crc >> 8) ^ CrcTable((((crc & 0xFF) as bv8) ^ (b as bv8)) as int)
  }

  /** The register after feeding `data` in order, starting from `crc`. */
  function Crc16Update(crc: bv16, data: bytes): (r: bv16)
    decreases |data|
  {
    if |data| == 0 then crc else Crc16Update(CrcStep(crc, data[0]), data[1..])
  }

  /** CRC of a whole buffer: the fold started from 0. */
  function Crc16(data: bytes): (r: bv16)
  {
    Crc16Update(0, data)
  }

  /** Feeding a concatenation is feeding its parts one after the other. */
  lemma {:induction false} Crc16UpdateAppend(crc: bv16, a: bytes, b: bytes)
    ensures Crc16Update(crc, a + b) == Crc16Update(Crc16Update(crc, a), b)
    decreases |a|
  {
    if |a| == 0 {
      assert a + b == b;
    } else {
      assert (a + b)[1..] == a[1..] + b;
      Crc16UpdateAppend(CrcStep(crc, a[0]), a[1..], b);
    }
  }

  /** Incremental use: continuing the CRC of `a` over `b` gives the CRC of `a ++ b`. */
  lemma Crc16Composes(a: bytes, b: bytes)
    ensures Crc16Update(Crc16(a), b) == Crc16(a + b)
  {
    Crc16UpdateAppend(0, a, b);
  }

  /** Feeding two bytes is two table steps. */
  lemma Crc16TwoSteps(crc: bv16, s: bytes)
    requires |s| == 2
    ensures Crc16Update(crc, s) == CrcStep(CrcStep(crc, s[0]), s[1])
  {
    assert Crc16Update(crc, s) == Crc16Update(CrcStep(crc, s[0]), s[1..]);
    assert s[1..][0] == s[1] && s[1..][1..] == [];
  }

  /** Check string "123456789", bytes 1-2: register 0x0000 becomes 0xBDEB. */
  lemma Crc16CheckSteps12(s: bytes)
    requires s == [0x31, 0x32]
    ensures Crc16Update(0x0000, s) == 0xBDEB
  {
    assert CrcStep(0x0000, 0x31) == 0x200A;
    assert CrcStep(0x200A, 0x32) == 0xBDEB;
    Crc16TwoSteps(0x0000, s);
  }

  /** Check string "123456789", bytes 3-4: register 0xBDEB becomes 0x8832. */
  lemma Crc16CheckSteps34(s: bytes)
    requires s == [0x33, 0x34]
    ensures Crc16Update(0xBDEB, s) == 0x8832
  {
    assert CrcStep(0xBDEB, 0x33) == 0x5A78;
    assert CrcStep(0x5A78, 0x34) == 0x8832;
    Crc16TwoSteps(0xBDEB, s);
  }

  /** Check string "123456789", bytes 5-6: register 0x8832 becomes 0x11FD. */
  lemma Crc16CheckSteps56(s: bytes)
    requires s == [0x35, 0x36]
    ensures Crc16Update(0x8832, s) == 0x11FD
  {
    assert CrcStep(0x8832, 0x35) == 0x7437;
    assert CrcStep(0x7437, 0x36) == 0x11FD;
    Crc16TwoSteps(0x8832, s);
  }

  /** Check string "123456789", bytes 7-8: register 0x11FD becomes 0x8B19. */
  lemma Crc16CheckSteps78(s: bytes)
    requires s == [0x37, 0x38]
    ensures Crc16Update(0x11FD, s) == 0x8B19
  {
    assert CrcStep(0x11FD, 0x37) == 0x6947;
    assert CrcStep(0x6947, 0x38) == 0x8B19;
    Crc16TwoSteps(0x11FD, s);
  }

  /** Check string "123456789", byte 9: register 0x8B19 becomes 0x2189. */
  lemma Crc16CheckSteps9(s: bytes)
    requires s == [0x39]
    ensures Crc16Update(0x8B19, s) == 0x2189
  {
    assert CrcStep(0x8B19, 0x39) == 0x2189;
    assert s[1..] == [];
  }

  /** Check string bytes 1-4: from 0 the register reaches 0x8832. */
  lemma Crc16CheckFirstFour(s: bytes)
    requires s == [0x31, 0x32, 0x33, 0x34]
    ensures Crc16Update(0x0000, s) == 0x8832
  {
    calc {
      Crc16Update(0x0000, s);
      == { assert s == s[..2] + s[2..]; Crc16UpdateAppend(0x0000, s[..2], s[2..]); }
      Crc16Update(Crc16Update(0x0000, s[..2]), s[2..]);
      == { Crc16CheckSteps12(s[..2]); }
      Crc16Update(0xBDEB, s[2..]);
      == { Crc16CheckSteps34(s[2..]); }
      0x8832;
    }
  }

  /** Check string bytes 5-8: from 0x8832 the register reaches 0x8B19. */
  lemma Crc16CheckNextFour(s: bytes)
    requires s == [0x35, 0x36, 0x37, 0x38]
    ensures Crc16Update(0x8832, s) == 0x8B19
  {
    calc {
      Crc16Update(0x8832, s);
      == { assert s == s[..2] + s[2..]; Crc16UpdateAppend(0x8832, s[..2], s[2..]); }
      Crc16Update(Crc16Update(0x8832, s[..2]), s[2..]);
      == { Crc16CheckSteps56(s[..2]); }
      Crc16Update(0x11FD, s[2..]);
      == { Crc16CheckSteps78(s[2..]); }
      0x8B19;
    }
  }

  /** The CRC of three consecutive pieces, piece by piece. */
  lemma Crc16ThreePieces(s: bytes, i: int, j: int)
    requires 0 <= i <= j <= |s|
    ensures Crc16(s) == Crc16Update(Crc16Update(Crc16(s[..i]), s[i..j]), s[j..])
  {
    var a, b, c := s[..i], s[i..j], s[j..];
    assert s == (a + b) + c;
    Crc16UpdateAppend(0x0000, a + b, c);
    Crc16UpdateAppend(0x0000, a, b);
  }

  /** The CRC-16/KERMIT check value: CRC("123456789") = 0x2189. */
  lemma Crc16CheckValue(s: bytes)
    requires s == [0x31, 0x32, 0x33, 0x34, 0x35, 0x36, 0x37, 0x38, 0x39]
    ensures Crc16(s) == 0x2189
  {
    calc {
      Crc16(s);
      == { Crc16ThreePieces(s, 4, 8); }
      Crc16Update(Crc16Update(Crc16(s[..4]), s[4..8]), s[8..]);
      == { Crc16CheckFirstFour(s[..4]); }
      Crc16Update(Crc16Update(0x8832, s[4..8]), s[8..]);
      == { Crc16CheckNextFour(s[4..8]); }
      Crc16Update(0x8B19, s[8..]);
      == { Crc16CheckSteps9(s[8..]); }
      0x2189;
    }
  }

  /** pt_crc16_update: the byte loop over the first `len` bytes of `data`. */
  method Crc16UpdateBuf(crc: bv16, data: array<byte>, len: int) returns (r: bv16)
    requires 0 <= len <= data.Length
    ensures r == Crc16Update(crc, data[..len])
  {
    r := crc;
    var i := 0;
    while i < len
      invariant 0 <= i <= len
      invariant Crc16Update(r, data[i..len]) == Crc16Update(crc, data[..len])
    {
      assert data[i..len][1..] == data[i + 1..len];
      r := CrcStep(r, data[i]);
      i := i + 1;
    }
    assert data[..len] == data[0..len];
  }

  /** pt_crc16: the same loop started from 0. */
  method Crc16Buf(data: array<byte>, len: int) returns (r: bv16)
    requires 0 <= len <= data.Length
    ensures r == Crc16(data[..len])
  {
    r := Crc16UpdateBuf(0, data, len);
  }

  /** pt_crc16_check: 1 when the CRC of the buffer equals `expected`, else 0. */
  method Crc16Check(data: array<byte>, len: int, expected: bv16) returns (r: int)
    requires 0 <= len <= data.Length
    ensures r == 1 <==> Crc16(data[..len]) == expected
    ensures r == 0 || r == 1
  {
    var crc := Crc16Buf(data, len);
    r := if crc == expected then 1 else 0;
  }

  // ---------------------------------------------------------------------
  // Big-endian fields and block writes
  // ---------------------------------------------------------------------

  /** A 16-bit value as two bytes, high byte first. */
  function Be16(n: uint16): (r: bytes)
    ensures |r| == 2 && (r[0] as int) * 256 + (r[1] as int) == n
  {
    [n / 256, n % 256]
  }

  /** The 16-bit value of two bytes read high byte first. */
  function FromBe16(hi: byte, lo: byte): (r: uint16)
  {
    hi * 256 + lo
  }

  lemma Be16RoundTrip(n: uint16)
    ensures FromBe16(Be16(n)[0], Be16(n)[1]) == n
  {
  }

  lemma FromBe16RoundTrip(hi: byte, lo: byte)
    ensures Be16(FromBe16(hi, lo)) == [hi, lo]
  {
  }

  /** The CRC register as its two trailer bytes. */
  function CrcBytes(c: bv16): (r: bytes)
    ensures |r| == 2
  {
    Be16(c as int)
  }

  /** Stores `data` at `buf[off..]` byte by byte (the stores and pt_memcpy
      calls of the encoders); nothing else in `buf` changes. */
  method WriteBytes(buf: array<byte>, off: int, data: bytes)
    requires 0 <= off && off + |data| <= buf.Length
    modifies buf
    ensures buf[..] == old(buf[..off]) + data + old(buf[off + |data|..])
  {
    var i := 0;
    while i < |data|
      invariant 0 <= i <= |data|
      invariant forall k | 0 <= k < buf.Length ::
                  buf[k] == (if off <= k < off + i then data[k - off] else old(buf[k]))
    {
      buf[off + i] := data[i];
      i := i + 1;
    }
    assert buf[..] == old(buf[..off]) + data + old(buf[off + |data|..]);
  }

  // ---------------------------------------------------------------------
  // Discovery packets ("PTLK")
  // ---------------------------------------------------------------------

  /** pt_discovery_packet; `name` holds the `name_len` name bytes. */
  datatype DiscoveryPacket = DiscoveryPacket(
    version: byte, ptype: byte, flags: uint16, senderPort: uint16,
    transports: byte, name: bytes)

  /** A name length that fits the one-byte `name_len` field. */
  predicate NameFits(p: DiscoveryPacket)
  {
    |p.name| < 256
  }

  predicate ValidDiscoveryType(t: byte)
  {
    DISC_TYPE_ANNOUNCE <= t <= DISC_TYPE_GOODBYE
  }

  /** The 12 header bytes: magic, version, type, flags, port, transports, name_len. */
  function DiscoveryHeader(p: DiscoveryPacket): (r: bytes)
    requires NameFits(p)
    ensures |r| == DISCOVERY_HEADER_SIZE
  {
    MAGIC_DISCOVERY + [p.version, p.ptype] + Be16(p.flags) + Be16(p.senderPort)
      + [p.transports, |p.name|]
  }

  /** The bytes the CRC covers: header and name. */
  function DiscoveryBody(p: DiscoveryPacket): (r: bytes)
    requires NameFits(p)
    ensures |r| == DISCOVERY_HEADER_SIZE + |p.name|
  {
    DiscoveryHeader(p) + p.name
  }

  /** The complete packet: body followed by its big-endian CRC. */
  function DiscoveryWire(p: DiscoveryPacket): (r: bytes)
    requires NameFits(p)
    ensures |r| == DISCOVERY_MIN_SIZE + |p.name|
  {
    DiscoveryBody(p) + CrcBytes(Crc16(DiscoveryBody(p)))
  }

  /** pt_discovery_encode: INVALID for an overlong name or unknown type,
      BUFFER_FULL when `bufLen` is short, otherwise the packet is written
      and its size returned. The version is written unchecked. */
  method DiscoveryEncode(p: DiscoveryPacket, buf: array<byte>, bufLen: int) returns (r: int)
    requires NameFits(p)
    requires 0 <= bufLen <= buf.Length
    modifies buf
    ensures (|p.name| > PEER_NAME_MAX || !ValidDiscoveryType(p.ptype)) ==>
              r == ERR_INVALID && buf[..] == old(buf[..])
    ensures |p.name| <= PEER_NAME_MAX && ValidDiscoveryType(p.ptype)
              && bufLen < DISCOVERY_MIN_SIZE + |p.name| ==>
              r == ERR_BUFFER_FULL && buf[..] == old(buf[..])
    ensures |p.name| <= PEER_NAME_MAX && ValidDiscoveryType(p.ptype)
              && bufLen >= DISCOVERY_MIN_SIZE + |p.name| ==>
              r == DISCOVERY_MIN_SIZE + |p.name|
              && buf[..r] == DiscoveryWire(p) && buf[r..] == old(buf[r..])
  {
    if |p.name| > PEER_NAME_MAX {
      return ERR_INVALID;
    }
    if !ValidDiscoveryType(p.ptype) {
      return ERR_INVALID;
    }
    var size := DISCOVERY_HEADER_SIZE + |p.name| + CRC_SIZE;
    if bufLen < size {
      return ERR_BUFFER_FULL;
    }
    WriteBytes(buf, 0, DiscoveryHeader(p));
    WriteBytes(buf, DISCOVERY_HEADER_SIZE, p.name);
    assert buf[..DISCOVERY_HEADER_SIZE + |p.name|] == DiscoveryBody(p);
    var crc := Crc16Buf(buf, DISCOVERY_HEADER_SIZE + |p.name|);
    WriteBytes(buf, DISCOVERY_HEADER_SIZE + |p.name|, CrcBytes(crc));
    r := size;
  }

  /** pt_discovery_decode, checks in the C order: length, magic, version,
      type, name length, full length, CRC. */
  function DiscoveryDecode(buf: bytes): (r: Result<DiscoveryPacket>)
    ensures |buf| < DISCOVERY_MIN_SIZE ==> r == Err(ERR_TRUNCATED)
    ensures r.Err? ==> r.code in {ERR_TRUNCATED, ERR_MAGIC, ERR_VERSION, ERR_INVALID, ERR_CRC}
  {
    if |buf| < DISCOVERY_MIN_SIZE then Err(ERR_TRUNCATED)
    else if buf[..4] != MAGIC_DISCOVERY then Err(ERR_MAGIC)
    else if buf[4] != PROTOCOL_VERSION then Err(ERR_VERSION)
    else if !ValidDiscoveryType(buf[5]) then Err(ERR_INVALID)
    else if buf[11] > PEER_NAME_MAX then Err(ERR_INVALID)
    else if |buf| < DISCOVERY_MIN_SIZE + buf[11] then Err(ERR_TRUNCATED)
    else
      var n := buf[11];
      if FromBe16(buf[DISCOVERY_HEADER_SIZE + n], buf[DISCOVERY_HEADER_SIZE + n + 1])
         != Crc16(buf[..DISCOVERY_HEADER_SIZE + n]) as int
      then Err(ERR_CRC)
      else Ok(DiscoveryFields(buf))
  }

  /** The fields of a discovery header at their fixed offsets. */
  lemma DiscoveryHeaderFields(p: DiscoveryPacket)
    requires NameFits(p)
    ensures var h := DiscoveryHeader(p);
            h[..4] == MAGIC_DISCOVERY && h[4] == p.version && h[5] == p.ptype
            && FromBe16(h[6], h[7]) == p.flags && FromBe16(h[8], h[9]) == p.senderPort
            && h[10] == p.transports && h[11] == |p.name|
  {
    Be16RoundTrip(p.flags);
    Be16RoundTrip(p.senderPort);
  }

  /** Twelve header bytes are the header of the packet read from them. */
  lemma DiscoveryHeaderOfBytes(h: bytes, name: bytes)
    requires |h| == DISCOVERY_HEADER_SIZE && h[..4] == MAGIC_DISCOVERY && h[11] == |name|
    ensures DiscoveryHeader(DiscoveryPacket(h[4], h[5], FromBe16(h[6], h[7]),
                                            FromBe16(h[8], h[9]), h[10], name)) == h
  {
    FromBe16RoundTrip(h[6], h[7]);
    FromBe16RoundTrip(h[8], h[9]);
  }

  /** The packet the decoder reads from a buffer that passed its checks. */
  function DiscoveryFields(buf: bytes): (p: DiscoveryPacket)
    requires |buf| >= DISCOVERY_HEADER_SIZE && |buf| >= DISCOVERY_HEADER_SIZE + buf[11]
    ensures |p.name| == buf[11]
  {
    DiscoveryPacket(buf[4], buf[5], FromBe16(buf[6], buf[7]), FromBe16(buf[8], buf[9]),
                    buf[10], buf[DISCOVERY_HEADER_SIZE..DISCOVERY_HEADER_SIZE + buf[11]])
  }

  /** A packet the decoder accepts is exactly the encoding of the packet it
      returns: a well-formed header with version 1, a known type, a name of
      at most 31 bytes, followed by the matching CRC. */
  lemma DiscoveryDecodeSound(buf: bytes)
    requires DiscoveryDecode(buf).Ok?
    ensures var p := DiscoveryDecode(buf).value;
            NameFits(p) && |p.name| <= PEER_NAME_MAX
            && p.version == PROTOCOL_VERSION && ValidDiscoveryType(p.ptype)
            && |buf| >= DISCOVERY_MIN_SIZE + |p.name|
            && buf[..DISCOVERY_MIN_SIZE + |p.name|] == DiscoveryWire(p)
  {
    var n := buf[11];
    var p := DiscoveryFields(buf);
    assert DiscoveryDecode(buf) == Ok(p);
    var h := buf[..DISCOVERY_HEADER_SIZE];
    var body := buf[..DISCOVERY_HEADER_SIZE + n];
    var t := buf[DISCOVERY_HEADER_SIZE + n..DISCOVERY_MIN_SIZE + n];
    DiscoveryBodyOfBytes(buf, p);
    assert FromBe16(t[0], t[1]) == Crc16(body) as int;
    FromBe16RoundTrip(t[0], t[1]);
    assert t == CrcBytes(Crc16(body));
    assert buf[..DISCOVERY_MIN_SIZE + n] == body + t;
  }

  lemma DiscoveryBodyOfBytes(buf: bytes, p: DiscoveryPacket)
    requires |buf| >= DISCOVERY_HEADER_SIZE && |buf| >= DISCOVERY_HEADER_SIZE + buf[11]
    requires buf[..4] == MAGIC_DISCOVERY && p == DiscoveryFields(buf)
    ensures NameFits(p) && DiscoveryBody(p) == buf[..DISCOVERY_HEADER_SIZE + buf[11]]
  {
    var h := buf[..DISCOVERY_HEADER_SIZE];
    assert h[..4] == buf[..4];
    DiscoveryHeaderOfBytes(h, p.name);
    assert p == DiscoveryPacket(h[4], h[5], FromBe16(h[6], h[7]), FromBe16(h[8], h[9]), h[10], p.name);
  }

  /** The wire bytes at the fixed offsets of an encoded packet. */
  lemma DiscoveryWireFields(p: DiscoveryPacket, buf: bytes)
    requires NameFits(p)
    requires |buf| >= DISCOVERY_MIN_SIZE + |p.name|
    requires buf[..DISCOVERY_MIN_SIZE + |p.name|] == DiscoveryWire(p)
    ensures buf[..4] == MAGIC_DISCOVERY && buf[4] == p.version && buf[5] == p.ptype
    ensures FromBe16(buf[6], buf[7]) == p.flags && FromBe16(buf[8], buf[9]) == p.senderPort
    ensures buf[10] == p.transports && buf[11] == |p.name|
    ensures buf[DISCOVERY_HEADER_SIZE..DISCOVERY_HEADER_SIZE + |p.name|] == p.name
    ensures buf[..DISCOVERY_HEADER_SIZE + |p.name|] == DiscoveryBody(p)
    ensures FromBe16(buf[DISCOVERY_HEADER_SIZE + |p.name|], buf[DISCOVERY_HEADER_SIZE + |p.name| + 1])
            == Crc16(DiscoveryBody(p)) as int
  {
    var n := |p.name|;
    var h := DiscoveryHeader(p);
    var body := DiscoveryBody(p);
    var t := CrcBytes(Crc16(body));
    var w := buf[..DISCOVERY_MIN_SIZE + n];
    assert w == h + p.name + t;
    DiscoveryHeaderFields(p);
    assert buf[..4] == h[..4];
    assert buf[DISCOVERY_HEADER_SIZE..DISCOVERY_HEADER_SIZE + n] == w[DISCOVERY_HEADER_SIZE..DISCOVERY_HEADER_SIZE + n];
    assert buf[..DISCOVERY_HEADER_SIZE + n] == w[..DISCOVERY_HEADER_SIZE + n];
    assert buf[DISCOVERY_HEADER_SIZE + n] == t[0] && buf[DISCOVERY_HEADER_SIZE + n + 1] == t[1];
    Be16RoundTrip(Crc16(body) as int);
  }

  /** Decoding an encoded version-1 packet, whatever follows it, gives the
      packet back. */
  lemma DiscoveryRoundTrip(p: DiscoveryPacket, rest: bytes)
    requires NameFits(p) && |p.name| <= PEER_NAME_MAX
    requires p.version == PROTOCOL_VERSION && ValidDiscoveryType(p.ptype)
    ensures DiscoveryDecode(DiscoveryWire(p) + rest) == Ok(p)
  {
    var buf := DiscoveryWire(p) + rest;
    assert buf[..DISCOVERY_MIN_SIZE + |p.name|] == DiscoveryWire(p);
    DiscoveryWireFields(p, buf);
  }

  /** The encoder passes any version through, and the decoder rejects every
      version other than 1. */
  lemma DiscoveryVersionRejected(p: DiscoveryPacket)
    requires NameFits(p) && |p.name| <= PEER_NAME_MAX && ValidDiscoveryType(p.ptype)
    requires p.version != PROTOCOL_VERSION
    ensures DiscoveryDecode(DiscoveryWire(p)) == Err(ERR_VERSION)
  {
    DiscoveryWireFields(p, DiscoveryWire(p));
  }

  /** Every strict prefix of a valid packet is reported as truncated. */
  lemma DiscoveryPrefixTruncated(p: DiscoveryPacket, k: int)
    requires NameFits(p) && |p.name| <= PEER_NAME_MAX
    requires p.version == PROTOCOL_VERSION && ValidDiscoveryType(p.ptype)
    requires 0 <= k < DISCOVERY_MIN_SIZE + |p.name|
    ensures DiscoveryDecode(DiscoveryWire(p)[..k]) == Err(ERR_TRUNCATED)
  {
    var w := DiscoveryWire(p);
    if k >= DISCOVERY_MIN_SIZE {
      DiscoveryWireFields(p, w);
      assert w[..k][..4] == w[..4];
    }
  }

  /** A packet whose two trailer bytes differ from the CRC of its body is
      rejected with the CRC error. */
  lemma DiscoveryBadCrcRejected(p: DiscoveryPacket, trailer: bytes)
    requires NameFits(p) && |p.name| <= PEER_NAME_MAX
    requires p.version == PROTOCOL_VERSION && ValidDiscoveryType(p.ptype)
    requires |trailer| == 2 && trailer != CrcBytes(Crc16(DiscoveryBody(p)))
    ensures DiscoveryDecode(DiscoveryBody(p) + trailer) == Err(ERR_CRC)
  {
    var buf := DiscoveryBody(p) + trailer;
    var w := DiscoveryWire(p);
    var n := |p.name|;
    assert buf[..DISCOVERY_HEADER_SIZE + n] == DiscoveryBody(p);
    assert w[..DISCOVERY_HEADER_SIZE + n] == DiscoveryBody(p);
    DiscoveryWireFields(p, w);
    assert buf[..DISCOVERY_HEADER_SIZE] == w[..DISCOVERY_HEADER_SIZE];
    assert buf[DISCOVERY_HEADER_SIZE + n..] == trailer;
    FromBe16RoundTrip(trailer[0], trailer[1]);
    assert trailer == [trailer[0], trailer[1]];
  }

  // ---------------------------------------------------------------------
  // Stream message headers ("PTMG")
  // ---------------------------------------------------------------------

  /** pt_message_header. */
  datatype MessageHeader = MessageHeader(
    version: byte, mtype: byte, flags: byte, sequence: byte, payloadLen: uint16)

  predicate ValidMessageType(t: byte)
  {
    MSG_TYPE_DATA <= t <= MSG_TYPE_REJECT
  }

  /** The 10 header bytes: magic, version, type, flags, sequence, length. */
  function MessageHeaderWire(h: MessageHeader): (r: bytes)
    ensures |r| == MESSAGE_HEADER_SIZE
  {
    MAGIC_MESSAGE + [h.version, h.mtype, h.flags, h.sequence] + Be16(h.payloadLen)
  }

  /** pt_message_encode_header: writes the 10 header bytes unchecked and
      returns 10; the caller supplies a buffer of at least that size. */
  method MessageEncodeHeader(h: MessageHeader, buf: array<byte>) returns (r: int)
    requires buf.Length >= MESSAGE_HEADER_SIZE
    modifies buf
    ensures r == MESSAGE_HEADER_SIZE
    ensures buf[..r] == MessageHeaderWire(h) && buf[r..] == old(buf[r..])
  {
    WriteBytes(buf, 0, MessageHeaderWire(h));
    r := MESSAGE_HEADER_SIZE;
  }

  /** pt_message_decode_header: length, magic, version, type, then fields. */
  function MessageDecodeHeader(buf: bytes): (r: Result<MessageHeader>)
    ensures |buf| < MESSAGE_HEADER_SIZE ==> r == Err(ERR_TRUNCATED)
    ensures r.Err? ==> r.code in {ERR_TRUNCATED, ERR_MAGIC, ERR_VERSION, ERR_INVALID}
  {
    if |buf| < MESSAGE_HEADER_SIZE then Err(ERR_TRUNCATED)
    else if buf[..4] != MAGIC_MESSAGE then Err(ERR_MAGIC)
    else if buf[4] != PROTOCOL_VERSION then Err(ERR_VERSION)
    else if !ValidMessageType(buf[5]) then Err(ERR_INVALID)
    else Ok(MessageHeader(buf[4], buf[5], buf[6], buf[7], FromBe16(buf[8], buf[9])))
  }

  /** An accepted header is the encoding of the header returned, with
      version 1 and a known message type. */
  lemma MessageDecodeHeaderSound(buf: bytes)
    requires MessageDecodeHeader(buf).Ok?
    ensures var h := MessageDecodeHeader(buf).value;
            h.version == PROTOCOL_VERSION && ValidMessageType(h.mtype)
            && |buf| >= MESSAGE_HEADER_SIZE && buf[..MESSAGE_HEADER_SIZE] == MessageHeaderWire(h)
  {
    FromBe16RoundTrip(buf[8], buf[9]);
  }

  lemma MessageHeaderWireFields(h: MessageHeader, buf: bytes)
    requires |buf| >= MESSAGE_HEADER_SIZE && buf[..MESSAGE_HEADER_SIZE] == MessageHeaderWire(h)
    ensures buf[..4] == MAGIC_MESSAGE && buf[4] == h.version && buf[5] == h.mtype
    ensures buf[6] == h.flags && buf[7] == h.sequence && FromBe16(buf[8], buf[9]) == h.payloadLen
  {
    var w := MessageHeaderWire(h);
    var len := Be16(h.payloadLen);
    assert w[..4] == MAGIC_MESSAGE && w[4] == h.version && w[5] == h.mtype;
    assert w[6] == h.flags && w[7] == h.sequence && w[8] == len[0] && w[9] == len[1];
    assert buf[..4] == w[..4];
    assert buf[4] == w[4] && buf[5] == w[5] && buf[6] == w[6] && buf[7] == w[7];
    assert buf[8] == w[8] && buf[9] == w[9];
    Be16RoundTrip(h.payloadLen);
  }

  /** Every field of a version-1 header of a known type survives
      encoding and decoding, whatever bytes follow the header. */
  lemma MessageHeaderRoundTrip(h: MessageHeader, rest: bytes)
    requires h.version == PROTOCOL_VERSION && ValidMessageType(h.mtype)
    ensures MessageDecodeHeader(MessageHeaderWire(h) + rest) == Ok(h)
  {
    var buf := MessageHeaderWire(h) + rest;
    assert buf[..MESSAGE_HEADER_SIZE] == MessageHeaderWire(h);
    MessageHeaderWireFields(h, buf);
  }

  /** Headers carrying another version, or (with version 1) an unknown
      type, are rejected with VERSION and INVALID respectively. */
  lemma MessageHeaderRejected(h: MessageHeader)
    ensures h.version != PROTOCOL_VERSION ==>
              MessageDecodeHeader(MessageHeaderWire(h)) == Err(ERR_VERSION)
    ensures h.version == PROTOCOL_VERSION && !ValidMessageType(h.mtype) ==>
              MessageDecodeHeader(MessageHeaderWire(h)) == Err(ERR_INVALID)
  {
    MessageHeaderWireFields(h, MessageHeaderWire(h));
  }

  // ---------------------------------------------------------------------
  // UDP messages ("PTUD")
  // ---------------------------------------------------------------------

  /** What pt_udp_decode reports: sender port, where the payload starts in
      the buffer, and its length. */
  datatype UdpMessage = UdpMessage(senderPort: uint16, payloadOffset: int, payloadLen: uint16)

  /** The 8-byte header (magic, port, length) followed by the payload. */
  function UdpWire(senderPort: uint16, payload: bytes): (r: bytes)
    requires |payload| < 0x1_0000
    ensures |r| == UDP_HEADER_SIZE + |payload|
  {
    MAGIC_UDP + Be16(senderPort) + Be16(|payload|) + payload
  }

  /** pt_udp_encode: BUFFER_FULL when `bufLen` cannot hold header and
      payload; otherwise the message is written and its size returned. */
  method UdpEncode(payload: bytes, senderPort: uint16, buf: array<byte>, bufLen: int)
    returns (r: int)
    requires |payload| < 0x1_0000
    requires 0 <= bufLen <= buf.Length
    modifies buf
    ensures bufLen < UDP_HEADER_SIZE + |payload| ==>
              r == ERR_BUFFER_FULL && buf[..] == old(buf[..])
    ensures bufLen >= UDP_HEADER_SIZE + |payload| ==>
              r == UDP_HEADER_SIZE + |payload|
              && buf[..r] == UdpWire(senderPort, payload) && buf[r..] == old(buf[r..])
  {
    var size := UDP_HEADER_SIZE + |payload|;
    if bufLen < size {
      return ERR_BUFFER_FULL;
    }
    WriteBytes(buf, 0, MAGIC_UDP + Be16(senderPort) + Be16(|payload|));
    if |payload| > 0 {
      WriteBytes(buf, UDP_HEADER_SIZE, payload);
    }
    r := size;
  }

  /** pt_udp_decode: length, magic, then the declared payload length must
      fit in the buffer; the payload starts right after the header. */
  function UdpDecode(buf: bytes): (r: Result<UdpMessage>)
    ensures |buf| < UDP_HEADER_SIZE ==> r == Err(ERR_TRUNCATED)
    ensures r.Err? ==> r.code in {ERR_TRUNCATED, ERR_MAGIC}
  {
    if |buf| < UDP_HEADER_SIZE then Err(ERR_TRUNCATED)
    else if buf[..4] != MAGIC_UDP then Err(ERR_MAGIC)
    else
      var len := FromBe16(buf[6], buf[7]);
      if |buf| < UDP_HEADER_SIZE + len then Err(ERR_TRUNCATED)
      else Ok(UdpMessage(FromBe16(buf[4], buf[5]), UDP_HEADER_SIZE, len))
  }

  /** An accepted datagram starts with the encoding of its port and of the
      payload slice the decoder points at. */
  lemma UdpDecodeSound(buf: bytes)
    requires UdpDecode(buf).Ok?
    ensures var m := UdpDecode(buf).value;
            m.payloadOffset == UDP_HEADER_SIZE
            && |buf| >= UDP_HEADER_SIZE + m.payloadLen
            && buf[..UDP_HEADER_SIZE + m.payloadLen]
               == UdpWire(m.senderPort, buf[UDP_HEADER_SIZE..UDP_HEADER_SIZE + m.payloadLen])
  {
    var m := UdpDecode(buf).value;
    FromBe16RoundTrip(buf[4], buf[5]);
    FromBe16RoundTrip(buf[6], buf[7]);
    assert buf[..UDP_HEADER_SIZE] == MAGIC_UDP + Be16(m.senderPort) + Be16(m.payloadLen);
  }

  lemma UdpWireFields(senderPort: uint16, payload: bytes, buf: bytes)
    requires |payload| < 0x1_0000
    requires |buf| >= UDP_HEADER_SIZE && buf[..UDP_HEADER_SIZE] == UdpWire(senderPort, payload)[..UDP_HEADER_SIZE]
    ensures buf[..4] == MAGIC_UDP
    ensures FromBe16(buf[4], buf[5]) == senderPort && FromBe16(buf[6], buf[7]) == |payload|
  {
    var w := UdpWire(senderPort, payload);
    assert w[..UDP_HEADER_SIZE] == MAGIC_UDP + Be16(senderPort) + Be16(|payload|);
    assert buf[..4] == buf[..UDP_HEADER_SIZE][..4];
    Be16RoundTrip(senderPort);
    Be16RoundTrip(|payload|);
  }

  /** Decoding an encoded datagram, whatever follows it, recovers the port
      and locates exactly the payload. */
  lemma UdpRoundTrip(senderPort: uint16, payload: bytes, rest: bytes)
    requires |payload| < 0x1_0000
    ensures var buf := UdpWire(senderPort, payload) + rest;
            UdpDecode(buf) == Ok(UdpMessage(senderPort, UDP_HEADER_SIZE, |payload|))
            && buf[UDP_HEADER_SIZE..UDP_HEADER_SIZE + |payload|] == payload
  {
    var buf := UdpWire(senderPort, payload) + rest;
    assert buf[..UDP_HEADER_SIZE] == UdpWire(senderPort, payload)[..UDP_HEADER_SIZE];
    UdpWireFields(senderPort, payload, buf);
  }

  /** A datagram cut anywhere before the end of its payload is truncated. */
  lemma UdpPrefixTruncated(senderPort: uint16, payload: bytes, k: int)
    requires |payload| < 0x1_0000
    requires 0 <= k < UDP_HEADER_SIZE + |payload|
    ensures UdpDecode(UdpWire(senderPort, payload)[..k]) == Err(ERR_TRUNCATED)
  {
    var w := UdpWire(senderPort, payload);
    if k >= UDP_HEADER_SIZE {
      assert w[..k][..UDP_HEADER_SIZE] == w[..UDP_HEADER_SIZE];
      UdpWireFields(senderPort, payload, w[..k]);
    }
  }
}
