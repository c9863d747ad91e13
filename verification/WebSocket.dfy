// The WebSocket text-frame writer (internal/web/ws.go) against a decoder for the base framing of
// section 5.2 of RFC 6455.
module WebSocket {
  import opened Prelude

  type byte = x: int | 0 <= x < 256

  // ---------------------------------------------------------------- the writer

  /** n as k big-endian bytes. */
  function BigEndian(n: nat, k: nat): (r: seq<byte>)
    ensures |r| == k
  {
    if k == 0 then [] else BigEndian(n / 256, k - 1) + [n % 256]
  }

  function Header(n: nat): (bytes: seq<byte>) {
    if n <= 125 then [0x81, n]
    else if n <= 65535 then [0x81, 126] + BigEndian(n, 2)
    else [0x81, 127] + BigEndian(n, 8)
  }

  function Encode(payload: seq<byte>): (frame: seq<byte>) {
    Header(|payload|) + payload
  }

  function EncodeAll(payloads: seq<seq<byte>>): (frames: seq<byte>) {
    if payloads == [] then [] else Encode(payloads[0]) + EncodeAll(payloads[1..])
  }

  class FrameWriter {
    var out: seq<byte>

    constructor ()
      ensures out == []
    {
      out := [];
    }

    /** One Write of which the connection takes the first `accepted` bytes. */
    method Write(bytes: seq<byte>, accepted: nat) returns (left: nat, ok: bool)
      modifies this
      ensures ok <==> |bytes| <= accepted
      ensures out == old(out) + (if ok then bytes else bytes[..accepted])
      ensures left == if ok then accepted - |bytes| else 0
    {
      if |bytes| <= accepted {
        out := out + bytes;
        return accepted - |bytes|, true;
      }
      out := out + bytes[..accepted];
      return 0, false;
    }

    /** The connection takes the first `accepted` bytes: what goes out is the frame, or that much of it and
        an error. */
    method WriteTextFrame(payload: seq<byte>, accepted: nat) returns (ok: bool)
      modifies this
      ensures ok <==> |Encode(payload)| <= accepted
      ensures out == old(out) + (if ok then Encode(payload) else Encode(payload)[..accepted])
    {
      var header: seq<byte> := [0x81];
      var n := |payload|;
      if n <= 125 {
        header := header + [n];
      } else if n <= 65535 {
        header := header + [126, n / 0x100 % 256, n % 256];
        TwoBytes(n);
      } else {
        header := header + [127,
          n / 0x100000000000000 % 256, n / 0x1000000000000 % 256, n / 0x10000000000 % 256, n / 0x100000000 % 256,
          n / 0x1000000 % 256, n / 0x10000 % 256, n / 0x100 % 256, n % 256];
        EightBytes(n);
      }
      assert header == Header(n);
      FrameCut(payload, accepted);
      hide *;
      var left: nat;
      left, ok := Write(header, accepted);
      if !ok { return; }
      left, ok := Write(payload, left);
    }
  }

  /** A frame that is cut short is cut in its header or in its payload. */
  lemma FrameCut(payload: seq<byte>, accepted: nat)
    ensures var header := Header(|payload|);
            && |Encode(payload)| == |header| + |payload|
            && (forall out :: out + header + payload == out + Encode(payload))
            && (accepted < |header| ==> Encode(payload)[..accepted] == header[..accepted])
            && (|header| <= accepted < |Encode(payload)| ==>
                  forall out :: out + header + payload[..accepted - |header|] == out + Encode(payload)[..accepted])
  {
    hide BigEndian, Header;
    var header := Header(|payload|);
    if |header| <= accepted < |Encode(payload)| {
      var part := payload[..accepted - |header|];
      assert Encode(payload)[..accepted] == header + part;
      assert forall out: seq<byte> :: out + header + part == out + (header + part);
    }
    assert forall out: seq<byte> :: out + header + payload == out + (header + payload);
  }

  lemma TwoBytes(n: nat)
    ensures BigEndian(n, 2) == [n / 0x100 % 256, n % 256]
  {
    assert BigEndian(n / 256, 1) == [n / 256 % 256] by { assert BigEndian(n / 256 / 256, 0) == []; }
  }

  lemma EightBytes(n: nat)
    ensures BigEndian(n, 8) ==
            [n / 0x100000000000000 % 256, n / 0x1000000000000 % 256, n / 0x10000000000 % 256, n / 0x100000000 % 256,
             n / 0x1000000 % 256, n / 0x10000 % 256, n / 0x100 % 256, n % 256]
  {
    var a := n / 256;
    var b := a / 256;
    var c := b / 256;
    var d := c / 256;
    var e := d / 256;
    var f := e / 256;
    TwoBytes(f);
    assert BigEndian(e, 3) == BigEndian(f, 2) + [e % 256];
    assert BigEndian(d, 4) == BigEndian(e, 3) + [d % 256];
    assert BigEndian(c, 5) == BigEndian(d, 4) + [c % 256];
    assert BigEndian(b, 6) == BigEndian(c, 5) + [b % 256];
    assert BigEndian(a, 7) == BigEndian(b, 6) + [a % 256];
    assert BigEndian(n, 8) == BigEndian(a, 7) + [n % 256];
    assert b == n / 0x10000 && c == n / 0x1000000 && d == n / 0x100000000 && e == n / 0x10000000000;
    assert f == n / 0x1000000000000 && f / 256 == n / 0x100000000000000;
  }

  // ---------------------------------------------------------------- the decoder of RFC 6455

  datatype Frame = Frame(fin: bool, rsv: nat, opcode: nat, masked: bool, payload: seq<byte>)

  function Value(bytes: seq<byte>): (n: nat) {
    if bytes == [] then 0 else Value(bytes[..|bytes| - 1]) * 256 + bytes[|bytes| - 1]
  }

  /** Payload length and header size; nothing if the header is incomplete, the length is not in its
      shortest form, or the most significant bit of a 64-bit length is set. */
  function Length(s: seq<byte>): (r: Option<(nat, nat)>)
    requires |s| >= 2
  {
    var len7 := s[1] % 128;
    if len7 < 126 then Some((len7, 2))
    else if len7 == 126 then
      if |s| < 4 || Value(s[2..4]) <= 125 then None else Some((Value(s[2..4]), 4))
    else
      if |s| < 10 || s[2] >= 128 || Value(s[2..10]) <= 65535 then None else Some((Value(s[2..10]), 10))
  }

  /** Unmask a payload with the 4-byte masking key (section 5.3). */
  function Unmask(key: seq<byte>, payload: seq<byte>): (plain: seq<byte>)
    requires |key| == 4
  {
    seq(|payload|, i requires 0 <= i < |payload| => ((payload[i] as bv8) ^ (key[i % 4] as bv8)) as byte)
  }

  /** The first frame of a stream and the number of bytes it takes. */
  function DecodeFrame(s: seq<byte>): (r: Option<(Frame, nat)>)
    ensures r.Some? ==> 2 <= r.value.1 <= |s|
  {
    if |s| < 2 then None
    else
      var masked, len := s[1] >= 128, Length(s);
      if len.None? then None
      else
        var (n, head) := len.value;
        var start := if masked then head + 4 else head;
        if |s| < start + n then None
        else
          var body := s[start..start + n];
          Some((Frame(s[0] >= 128, s[0] / 16 % 8, s[0] % 16, masked,
                      if masked then Unmask(s[head..head + 4], body) else body), start + n))
  }

  function DecodeAll(s: seq<byte>): (frames: Option<seq<Frame>>)
    decreases |s|
  {
    if s == [] then Some([])
    else
      var f := DecodeFrame(s);
      if f.None? then None
      else
        var rest := DecodeAll(s[f.value.1..]);
        if rest.None? then None else Some([f.value.0] + rest.value)
  }

  // ---------------------------------------------------------------- round trip

  /** A final, unmasked text frame with no extension bits. */
  function TextFrame(payload: seq<byte>): (f: Frame) {
    Frame(true, 0, 1, false, payload)
  }

  function TextFrames(payloads: seq<seq<byte>>): (frames: seq<Frame>) {
    if payloads == [] then [] else [TextFrame(payloads[0])] + TextFrames(payloads[1..])
  }

  function Pow256(k: nat): (p: nat) {
    if k == 0 then 1 else 256 * Pow256(k - 1)
  }

  lemma {:induction false} ValueOfBigEndian(n: nat, k: nat)
    requires n < Pow256(k)
    ensures Value(BigEndian(n, k)) == n
  {
    if k > 0 {
      ValueOfBigEndian(n / 256, k - 1);
      var r := BigEndian(n, k);
      assert r[..k - 1] == BigEndian(n / 256, k - 1);
    }
  }

  const MAX_LEN: nat := 0x8000000000000000

  lemma ReadTwo(n: nat)
    requires n <= 65535
    ensures Value(BigEndian(n, 2)) == n
  {
    assert Pow256(2) == 65536 by { assert Pow256(1) == 256; }
    ValueOfBigEndian(n, 2);
  }

  lemma ReadEight(n: nat)
    requires n < MAX_LEN
    ensures Value(BigEndian(n, 8)) == n
    ensures BigEndian(n, 8)[0] < 128
  {
    assert Pow256(2) == 65536 by { assert Pow256(1) == 256; }
    assert Pow256(4) == 0x100000000;
    assert Pow256(6) == 0x1000000000000;
    assert Pow256(8) == 0x1_0000000000000000;
    ValueOfBigEndian(n, 8);
    EightBytes(n);
    hide BigEndian, Pow256, Value;
    assert n / 0x100000000000000 < 128;
  }

  /** The header of a length below 2^63 is read back, in its shortest form, whatever follows. */
  lemma LengthOfHeader(n: nat, rest: seq<byte>)
    requires n < MAX_LEN
    ensures var s := Header(n) + rest;
            && s[0] == 0x81 && s[1] < 128
            && Length(s) == Some((n, |Header(n)|))
            && |Header(n)| == if n <= 125 then 2 else if n <= 65535 then 4 else 10
  {
    hide BigEndian, Value;
    var s := Header(n) + rest;
    if 125 < n <= 65535 {
      ReadTwo(n);
      assert s[2..4] == BigEndian(n, 2);
    } else if 65535 < n {
      ReadEight(n);
      assert s[2..10] == BigEndian(n, 8);
      assert s[2] == BigEndian(n, 8)[0];
    }
  }

  lemma DecodeEncoded(payload: seq<byte>, rest: seq<byte>)
    requires |payload| < MAX_LEN
    ensures DecodeFrame(Encode(payload) + rest) == Some((TextFrame(payload), |Encode(payload)|))
  {
    var n, s := |payload|, Encode(payload) + rest;
    assert s == Header(n) + (payload + rest);
    LengthOfHeader(n, payload + rest);
    assert s[|Header(n)|..|Header(n)| + n] == payload;
  }

  /** The frames written for any list of payloads decode to exactly that list. */
  lemma {:induction false} FramesRoundTrip(payloads: seq<seq<byte>>)
    requires forall p :: p in payloads ==> |p| < MAX_LEN
    ensures DecodeAll(EncodeAll(payloads)) == Some(TextFrames(payloads))
    decreases |payloads|
  {
    if payloads != [] {
      assert payloads[0] in payloads;
      var rest := EncodeAll(payloads[1..]);
      DecodeEncoded(payloads[0], rest);
      assert EncodeAll(payloads)[|Encode(payloads[0])|..] == rest;
      FramesRoundTrip(payloads[1..]);
    }
  }
}
