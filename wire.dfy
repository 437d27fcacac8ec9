/** Values shared by the packet output stream and the authentication plugins:
    bytes, the packets a connection flushes, and the way the peer reads back
    a null-terminated string from a packet payload. */
module Wire {

  newtype byte = x: int | 0 <= x < 256

  datatype Option<+T> = None | Some(value: T)

  /** A packet sequence number: one header byte. */
  type SeqNo = x: nat | x < 256

  /** The sequence number of the next packet of an exchange. */
  function NextSeq(s: SeqNo): (r: SeqNo)
    ensures r == (s + 1) % 256
  {
    if s == 255 then 0 else s + 1
  }

  /** The sequence number `k` packets after `s`. */
  function SeqAfter(s: SeqNo, k: nat): SeqNo
  {
    if k == 0 then s else NextSeq(SeqAfter(s, k - 1))
  }

  /** Advancing a number that has already wrapped is the same as advancing
      the unwrapped one. */
  lemma WrapSucc(a: nat)
    ensures (a % 256 + 1) % 256 == (a + 1) % 256
  {
    var q, r := a / 256, a % 256;
    assert a == 256 * q + r;
    if r < 255 {
      assert a + 1 == 256 * q + (r + 1);
    } else {
      assert a + 1 == 256 * (q + 1);
    }
  }

  /** `k` packets later the sequence number has advanced by `k`, modulo 256. */
  lemma {:induction false} SeqAfterWraps(s: SeqNo, k: nat)
    ensures SeqAfter(s, k) == (s + k) % 256
  {
    if k > 0 {
      SeqAfterWraps(s, k - 1);
      WrapSucc(s + k - 1);
    }
  }

  /** One packet as it leaves the output stream: the sequence number in its
      header, its payload, and whether the flush that sent it was flagged as
      the command's last one. */
  datatype Packet = Packet(sequenceNo: SeqNo, payload: seq<byte>, commit: bool)

  /** Appending is associative. */
  lemma AppendAssoc<T>(a: seq<T>, b: seq<T>, c: seq<T>)
    ensures a + (b + c) == (a + b) + c
  {
  }

  /** A payload cut at its first zero byte: the text before it and what follows. */
  datatype Split = Split(text: seq<byte>, rest: seq<byte>)

  /** How the receiving side reads a null-terminated string at the start of
      `s`: it takes every byte up to the first zero byte and skips that zero.
      There is no string when `s` holds no zero byte. */
  function ReadNullTerminated(s: seq<byte>): (r: Option<Split>)
    ensures r.None? <==> 0 !in s
    ensures r.Some? ==> s == r.value.text + [0] + r.value.rest && 0 !in r.value.text
  {
    if |s| == 0 then None
    else if s[0] == 0 then Some(Split([], s[1..]))
    else
      match ReadNullTerminated(s[1..])
      case None => None
      case Some(Split(text, rest)) => Some(Split([s[0]] + text, rest))
  }

  /** Writing a string without zero bytes followed by a zero terminator is
      undone by reading a null-terminated string: the reader gets the string
      back, and whatever came after the terminator is left untouched. */
  lemma {:induction false} ReadWrittenString(text: seq<byte>, rest: seq<byte>)
    requires 0 !in text
    ensures ReadNullTerminated(text + [0] + rest) == Some(Split(text, rest))
  {
    var s := text + [0] + rest;
    if text == [] {
      assert s[1..] == rest;
    } else {
      assert text[0] in text;
      assert s[1..] == text[1..] + [0] + rest;
      ReadWrittenString(text[1..], rest);
      assert [text[0]] + text[1..] == text;
    }
  }

  /** A string that holds a zero byte is cut short by the reader: it gets the
      bytes before the first zero only. */
  lemma {:induction false} ReadTruncatesAtZero(text: seq<byte>, k: nat)
    requires k < |text| && text[k] == 0 && 0 !in text[..k]
    ensures ReadNullTerminated(text + [0]) == Some(Split(text[..k], text[k + 1..] + [0]))
  {
    assert text + [0] == text[..k] + [0] + (text[k + 1..] + [0]);
    ReadWrittenString(text[..k], text[k + 1..] + [0]);
  }
}
