/** Bytes, sectors and the 32-bit little-endian words stored in them. */
module Words {
  type Byte = x: int | 0 <= x < 256

  const SECTOR: nat := 512
  const WORD_LIMIT: nat := 0x1_0000_0000

  /** The sum of two uint32_t. */
  function Add32(a: nat, b: nat): nat { (a + b) % WORD_LIMIT }

  /** One disk sector; blocks of the file system have the same size. */
  type Sector = s: seq<Byte> | |s| == SECTOR witness seq(SECTOR, _ => 0)

  function ZeroSector(): Sector { seq(SECTOR, i => 0) }

  function Put(w: nat): (b: seq<Byte>)
    requires w < WORD_LIMIT
    ensures |b| == 4
  {
    [w % 256, w / 256 % 256, w / 65536 % 256, w / 16777216]
  }

  function Get(b: seq<Byte>): (w: nat)
    requires |b| >= 4
    ensures w < WORD_LIMIT
  {
    b[0] as int + 256 * (b[1] as int) + 65536 * (b[2] as int) + 16777216 * (b[3] as int)
  }

  lemma GetPut(w: nat, rest: seq<Byte>)
    requires w < WORD_LIMIT
    ensures Get(Put(w) + rest) == w
  {
    hide Put;
    assert Get(Put(w) + rest) == Get(Put(w));
    GetPutOnly(w);
  }

  lemma Digits(w: nat, a: nat, b: nat, c: nat)
    requires a == w / 256 && b == a / 256 && c == b / 256
    ensures w == w % 256 + 256 * (a % 256) + 65536 * (b % 256) + 16777216 * c
  {
  }

  lemma GetPutOnly(w: nat)
    requires w < WORD_LIMIT
    ensures Get(Put(w)) == w
  {
    Digits(w, w / 256, w / 65536, w / 16777216);
  }

  predicate AreWords(ws: seq<nat>) {
    forall i :: 0 <= i < |ws| ==> ws[i] < WORD_LIMIT
  }

  function Encode(ws: seq<nat>): (b: seq<Byte>)
    requires AreWords(ws)
    ensures |b| == 4 * |ws|
  {
    if ws == [] then [] else Put(ws[0]) + Encode(ws[1..])
  }

  function Decode(b: seq<Byte>): (ws: seq<nat>)
    ensures |ws| == |b| / 4 && AreWords(ws)
  {
    if |b| < 4 then [] else [Get(b)] + Decode(b[4..])
  }

  lemma {:induction false} DecodeEncode(ws: seq<nat>)
    requires AreWords(ws)
    ensures Decode(Encode(ws)) == ws
  {
    if ws != [] {
      GetPut(ws[0], Encode(ws[1..]));
      assert Encode(ws)[4..] == Encode(ws[1..]);
      DecodeEncode(ws[1..]);
    }
  }

  lemma PutGet(b: seq<Byte>)
    requires |b| >= 4
    ensures Put(Get(b)) == b[..4]
  {
    Bases(b[0], b[1], b[2], b[3]);
    assert b[..4] == [b[0], b[1], b[2], b[3]];
  }

  lemma Bases(a: Byte, b: Byte, c: Byte, d: Byte)
    ensures var w := a as int + 256 * (b as int) + 65536 * (c as int) + 16777216 * (d as int);
      w % 256 == a && w / 256 % 256 == b && w / 65536 % 256 == c && w / 16777216 == d
  {
    var w := a as int + 256 * (b as int) + 65536 * (c as int) + 16777216 * (d as int);
    assert w / 256 == b as int + 256 * (c as int) + 65536 * (d as int);
    assert w / 65536 == c as int + 256 * (d as int);
  }

  /** No two byte strings of whole words have the same words. */
  lemma {:induction false} EncodeDecode(b: seq<Byte>)
    requires |b| % 4 == 0
    ensures Encode(Decode(b)) == b
  {
    if |b| >= 4 {
      EncodeDecode(b[4..]);
      PutGet(b);
      assert b == b[..4] + b[4..];
    }
  }
}
