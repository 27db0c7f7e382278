/** Handshake fragments of DTLS on the wire: a twelve-byte header and a stretch of the message body. */
module DtlsFragment {
  import opened Prelude

  const HEADER := 12
  const U16 := 0x1_0000
  const U24 := 0x100_0000

  /** The message's type, length and number, and where in its body this fragment belongs. */
  datatype Fragment = Fragment(typ: u8, msgLen: nat, num: nat, off: nat, body: seq<u8>)

  function Big16(v: nat): (b: seq<u8>)
    ensures |b| == 2
  {
    [v / 256 % 256, v % 256]
  }

  function Big24(v: nat): (b: seq<u8>)
    ensures |b| == 3
  {
    [v / 65536 % 256, v / 256 % 256, v % 256]
  }

  function Header(typ: u8, msgLen: nat, num: nat, off: nat, len: nat): (b: seq<u8>)
    ensures |b| == HEADER
  {
    [typ] + Big24(msgLen) + Big16(num) + Big24(off) + Big24(len)
  }

  function Bytes(f: Fragment): (b: seq<u8>)
    ensures |b| == HEADER + |f.body|
  {
    Header(f.typ, f.msgLen, f.num, f.off, |f.body|) + f.body
  }

  /** Every number fits its place in the header. */
  predicate Fits(f: Fragment) {
    f.msgLen < U24 && f.num < U16 && f.off < U24 && |f.body| < U24
  }

  /** The first digit needs no reduction. */
  lemma FirstDigit(v: nat)
    ensures v < U24 ==> v / 0x1_0000 % 256 == v / 0x1_0000
    ensures v < U16 ==> v / 256 % 256 == v / 256
  {
  }

  /** The layout of section 4.2.2 of RFC 6347: type, length, number, offset and fragment length, and then the fragment. */
  lemma Layout(f: Fragment)
    requires Fits(f)
    ensures f.msgLen / 0x1_0000 < 256 && f.num / 256 < 256 && f.off / 0x1_0000 < 256 && |f.body| / 0x1_0000 < 256
    ensures Bytes(f)
         == [f.typ, f.msgLen / 0x1_0000, f.msgLen / 256 % 256, f.msgLen % 256, f.num / 256, f.num % 256,
             f.off / 0x1_0000, f.off / 256 % 256, f.off % 256, |f.body| / 0x1_0000, |f.body| / 256 % 256, |f.body| % 256] + f.body
  {
    FirstDigit(f.msgLen);
    FirstDigit(f.num);
    FirstDigit(f.off);
    FirstDigit(|f.body|);
  }

  function Get16(s: seq<u8>, i: nat): (v: nat)
    requires i + 2 <= |s|
    ensures v < U16
  {
    s[i] as int * 256 + s[i + 1] as int
  }

  function Get24(s: seq<u8>, i: nat): (v: nat)
    requires i + 3 <= |s|
    ensures v < U24
  {
    s[i] as int * 65536 + s[i + 1] as int * 256 + s[i + 2] as int
  }

  /** The fragment at the front of a record, or failure when the record is cut short. */
  function Parse(s: seq<u8>): (r: Read<Fragment>)
    ensures r.Got? ==> Fits(r.value) && s == Bytes(r.value) + r.rest
    ensures r.Got? ==> |r.rest| < |s|
  {
    if |s| < HEADER then Fail
    else
      var len := Get24(s, 9);
      if |s| - HEADER < len then Fail
      else
        var f := Fragment(s[0], Get24(s, 1), Get16(s, 4), Get24(s, 6), s[HEADER..HEADER + len]);
        HeaderBack(s, f);
        Got(f, s[HEADER + len..])
  }

  lemma HeaderBack(s: seq<u8>, f: Fragment)
    requires |s| >= HEADER + |f.body| && f.typ == s[0]
    requires f.msgLen == Get24(s, 1) && f.num == Get16(s, 4) && f.off == Get24(s, 6) && |f.body| == Get24(s, 9)
    requires f.body == s[HEADER..HEADER + |f.body|]
    ensures s == Bytes(f) + s[HEADER + |f.body|..]
  {
    Big24Back(s, 1);
    Big16Back(s, 4);
    Big24Back(s, 6);
    Big24Back(s, 9);
    assert s[..HEADER] == Header(f.typ, f.msgLen, f.num, f.off, |f.body|);
    assert s == s[..HEADER] + f.body + s[HEADER + |f.body|..];
  }

  lemma Big16Back(s: seq<u8>, i: nat)
    requires i + 2 <= |s|
    ensures Big16(Get16(s, i)) == s[i..i + 2]
  {
  }

  lemma Big24Back(s: seq<u8>, i: nat)
    requires i + 3 <= |s|
    ensures Big24(Get24(s, i)) == s[i..i + 3]
  {
    var v := Get24(s, i);
    assert v / 256 == s[i] as int * 256 + s[i + 1] as int;
    assert v / 65536 == s[i];
  }

  /** What the sender frames is what the receiver parses, whatever follows in the record. */
  lemma ParseOfBytes(f: Fragment, rest: seq<u8>)
    requires Fits(f)
    ensures Parse(Bytes(f) + rest) == Got(f, rest)
  {
    hide Big24, Get24, Parse, Header;
    var s := Bytes(f) + rest;
    HeaderFields(f, s);
    ParseUnfold(f, s);
    assert s[HEADER..HEADER + |f.body|] == f.body;
    assert s[HEADER + |f.body|..] == rest;
  }

  lemma ParseUnfold(f: Fragment, s: seq<u8>)
    requires |s| >= HEADER + |f.body| && Get24(s, 9) == |f.body|
    ensures Parse(s)
            == Got(Fragment(s[0], Get24(s, 1), Get16(s, 4), Get24(s, 6), s[HEADER..HEADER + |f.body|]), s[HEADER + |f.body|..])
  {
    hide Get24, Get16;
  }

  lemma HeaderFields(f: Fragment, s: seq<u8>)
    requires Fits(f) && |s| >= HEADER && s[..HEADER] == Header(f.typ, f.msgLen, f.num, f.off, |f.body|)
    ensures s[0] == f.typ && Get24(s, 1) == f.msgLen && Get16(s, 4) == f.num && Get24(s, 6) == f.off && Get24(s, 9) == |f.body|
  {
    var h := s[..HEADER];
    assert h[0] == f.typ && h[1..4] == Big24(f.msgLen) && h[4..6] == Big16(f.num);
    assert h[6..9] == Big24(f.off) && h[9..12] == Big24(|f.body|);
    Big24Digits(f.msgLen);
    Big24Digits(f.off);
    Big24Digits(|f.body|);
    assert s[1..4] == h[1..4] && s[4..6] == h[4..6] && s[6..9] == h[6..9] && s[9..12] == h[9..12];
  }

  lemma Big24Digits(v: nat)
    requires v < U24
    ensures Get24(Big24(v), 0) == v
  {
    assert v == v / 65536 * 65536 + v / 256 % 256 * 256 + v % 256;
  }
}
