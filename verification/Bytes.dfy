/** Sectors as bytes, and the little-endian layouts the file system stores in them. */
module Bytes {
  const SECTOR_SIZE: nat := 512
  const WORD_LIMIT: nat := 0x1_0000_0000

  type Byte = x: int | 0 <= x < 256
  type Word = x: int | 0 <= x < WORD_LIMIT
  type Sector = s: seq<Byte> | |s| == SECTOR_SIZE witness seq(SECTOR_SIZE, _ => 0)

  /** A buffer after `memset(buf, 0, n)`. */
  function Zeros(n: nat): (z: seq<Byte>)
    ensures |z| == n && forall i | 0 <= i < n :: z[i] == 0
  {
    seq(n, _ => 0)
  }

  const ZeroSector: Sector := Zeros(SECTOR_SIZE)

  /** `memcpy(buf + off, src, |src|)`. */
  function Patch(buf: seq<Byte>, off: nat, src: seq<Byte>): (r: seq<Byte>)
    requires off + |src| <= |buf|
    ensures |r| == |buf|
    ensures forall k | 0 <= k < |buf| :: r[k] == if off <= k < off + |src| then src[k - off] else buf[k]
  {
    buf[..off] + src + buf[off + |src|..]
  }

  // ---- 32-bit words -------------------------------------------------------------------------

  function WordBytes(w: Word): (b: seq<Byte>)
    ensures |b| == 4
  {
    [w % 256, w / 256 % 256, w / 256 / 256 % 256, w / 256 / 256 / 256]
  }

  function BytesWord(b: seq<Byte>): (w: Word)
    requires |b| == 4
  {
    b[0] as int + 256 * (b[1] as int) + 65536 * (b[2] as int) + 16777216 * (b[3] as int)
  }

  lemma WordRoundTrip(w: Word)
    ensures BytesWord(WordBytes(w)) == w
  {
  }

  /** The 32-bit number that four bytes from `off` on are to an x86, lowest byte first. */
  function LittleEndian(b: seq<Byte>, off: nat): (n: int)
    requires off + 4 <= |b|
  {
    b[off] as int + 0x100 * (b[off + 1] as int) + 0x10000 * (b[off + 2] as int) + 0x1000000 * (b[off + 3] as int)
  }

  lemma WordIsLittleEndian(w: Word, front: seq<Byte>, back: seq<Byte>)
    ensures LittleEndian(front + WordBytes(w) + back, |front|) == w
  {
    var b := front + WordBytes(w) + back;
    assert forall k | 0 <= k < 4 :: b[|front| + k] == WordBytes(w)[k];
    WordRoundTrip(w);
  }

  /** Word `j` of a buffer read as an array of words. */
  function WordAt(b: seq<Byte>, j: nat): (w: Word)
    requires 4 * j + 4 <= |b|
  {
    BytesWord(b[4 * j..4 * j + 4])
  }

  function Words(s: Sector): (ws: seq<Word>)
    ensures |ws| == 128
  {
    seq(128, j requires 0 <= j < 128 => WordAt(s, j))
  }

  function FromWords(ws: seq<Word>): (b: seq<Byte>)
    ensures |b| == 4 * |ws|
    ensures forall j, k | 0 <= j < |ws| && 4 * j <= k < 4 * j + 4 :: b[k] == WordBytes(ws[j])[k - 4 * j]
  {
    seq(4 * |ws|, k requires 0 <= k < 4 * |ws| => WordBytes(ws[k / 4])[k % 4])
  }

  lemma WordsRoundTrip(ws: seq<Word>)
    requires |ws| == 128
    ensures Words(FromWords(ws)) == ws
  {
    forall j | 0 <= j < 128
      ensures WordAt(FromWords(ws), j) == ws[j]
    {
      assert FromWords(ws)[4 * j..4 * j + 4] == WordBytes(ws[j]);
      WordRoundTrip(ws[j]);
    }
  }

  // ---- C strings in fixed-size fields -------------------------------------------------------

  predicate Plain(s: string)
  {
    forall i | 0 <= i < |s| :: 0 < s[i] as int < 256
  }

  function CharBytes(s: string): (b: seq<Byte>)
    requires Plain(s)
    ensures |b| == |s| && forall i | 0 <= i < |s| :: b[i] == s[i] as int && b[i] != 0
  {
    seq(|s|, i requires 0 <= i < |s| => s[i] as int as Byte)
  }

  /** What `strcmp` sees in a field: the bytes before the first zero. */
  function CString(b: seq<Byte>): (s: string)
    ensures |s| <= |b|
    ensures Plain(s)
  {
    if b == [] || b[0] == 0 then "" else [b[0] as char] + CString(b[1..])
  }

  lemma {:induction false} CStringRoundTrip(s: string, pad: nat)
    requires Plain(s)
    ensures CString(CharBytes(s) + Zeros(pad)) == s
  {
    var b := CharBytes(s) + Zeros(pad);
    if s != "" {
      CStringRoundTrip(s[1..], pad);
      assert b[1..] == CharBytes(s[1..]) + Zeros(pad);
    }
  }
}
