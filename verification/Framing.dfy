/** The length-prefixed frames of internal/control/proto.go over a byte stream.

    JSON marshalling is a parameter: `enc` and `dec` are any codec whose decoder undoes its
    encoder.  A frame is written iff its encoding fits, and read iff its length is in range. */
module Framing {
  import opened Bytes
  import opened Naming

  const MAX_FRAME_BYTES := 65536

  /** The reader's answer: a frame and the bytes it left, or an error. */
  datatype Read<+F> = Frame(f: F, rest: seq<byte>) | Error

  ghost predicate RoundTrips<F(!new)>(enc: F -> seq<byte>, dec: seq<byte> -> Option<F>) {
    forall f :: dec(enc(f)) == Some(f)
  }

  predicate Fits(payload: seq<byte>) {
    |payload| <= MAX_FRAME_BYTES
  }

  function Header(n: nat): (h: seq<byte>)
    requires n <= MAX_FRAME_BYTES
    ensures |h| == 4 && Value(h) == n
  {
    assert Pow256(4) == 0x1_0000_0000;
    BigEndianValue(n, 4);
    BigEndian(n, 4)
  }

  function Write<F>(enc: F -> seq<byte>, f: F): seq<byte>
    requires Fits(enc(f))
  {
    Header(|enc(f)|) + enc(f)
  }

  function ReadOne<F>(dec: seq<byte> -> Option<F>, stream: seq<byte>): Read<F> {
    if |stream| < 4 then Error
    else
      var n := Value(stream[..4]);
      if n == 0 || n > MAX_FRAME_BYTES || |stream| - 4 < n then Error
      else match dec(stream[4..4 + n])
           case None => Error
           case Some(f) => Frame(f, stream[4 + n..])
  }

  predicate Writable<F>(enc: F -> seq<byte>, fs: seq<F>) {
    forall i :: 0 <= i < |fs| ==> 1 <= |enc(fs[i])| <= MAX_FRAME_BYTES
  }

  function WriteAll<F>(enc: F -> seq<byte>, fs: seq<F>): seq<byte>
    requires Writable(enc, fs)
  {
    if fs == [] then [] else Write(enc, fs[0]) + WriteAll(enc, fs[1..])
  }

  /** Reads frames until one cannot be read; returns them with the unread bytes. */
  function ReadAll<F>(dec: seq<byte> -> Option<F>, stream: seq<byte>): (seq<F>, seq<byte>)
    decreases |stream|
  {
    match ReadOne(dec, stream)
    case Error => ([], stream)
    case Frame(f, rest) => var (fs, left) := ReadAll(dec, rest); ([f] + fs, left)
  }

  /** The reader accepts exactly the lengths 1 to 65536. */
  lemma AcceptedLengths<F>(dec: seq<byte> -> Option<F>, header: seq<byte>, body: seq<byte>, tail: seq<byte>, f: F)
    requires |header| == 4 && Value(header) == |body| && dec(body) == Some(f)
    ensures ReadOne(dec, header + body + tail) == Frame(f, tail) <==> 1 <= |body| <= 65536
  {
    var stream := header + body + tail;
    assert stream[..4] == header && stream[4..4 + |body|] == body && stream[4 + |body|..] == tail;
  }

  /** The header is the length in four bytes, most significant first. */
  lemma HeaderBytes(n: nat)
    requires n <= 65536
    ensures Header(n) == [0, n / 65536, n / 256 % 256, n % 256]
  {
    var h := Header(n);
    assert BigEndian(n, 4) == h;
    assert BigEndian(n / 256, 3) == BigEndian(n / 256 / 256, 2) + [n / 256 % 256];
    assert BigEndian(n / 256 / 256, 2) == BigEndian(n / 256 / 256 / 256, 1) + [n / 256 / 256 % 256];
    assert BigEndian(n / 256 / 256 / 256, 1) == [0];
  }

  /** A whole frame at the front of the stream is the next one read. */
  lemma ReadsFirst<F(!new)>(enc: F -> seq<byte>, dec: seq<byte> -> Option<F>, f: F, more: seq<byte>)
    requires RoundTrips(enc, dec) && 1 <= |enc(f)| <= MAX_FRAME_BYTES
    ensures ReadAll(dec, Write(enc, f) + more) == ([f] + ReadAll(dec, more).0, ReadAll(dec, more).1)
  {
    AcceptedLengths(dec, Header(|enc(f)|), enc(f), more, f);
  }

  lemma WriteAllHead<F>(enc: F -> seq<byte>, fs: seq<F>, tail: seq<byte>)
    requires Writable(enc, fs) && fs != []
    ensures WriteAll(enc, fs) + tail == Write(enc, fs[0]) + (WriteAll(enc, fs[1..]) + tail)
  {}

  lemma Regroup<F>(fs: seq<F>, after: seq<F>)
    requires fs != []
    ensures [fs[0]] + (fs[1..] + after) == fs + after
  {}

  /** Bytes written by any sequence of frames read back as that sequence, and the reader
      stops exactly where the frames end. */
  lemma {:induction false} ReadsBackWhatWasWritten<F(!new)>(
    enc: F -> seq<byte>, dec: seq<byte> -> Option<F>, fs: seq<F>, tail: seq<byte>)
    requires RoundTrips(enc, dec) && Writable(enc, fs)
    ensures ReadAll(dec, WriteAll(enc, fs) + tail) == (fs + ReadAll(dec, tail).0, ReadAll(dec, tail).1)
    decreases fs
  {
    var after := ReadAll(dec, tail).0;
    if fs == [] {
      assert WriteAll(enc, fs) + tail == tail && fs + after == after;
    } else {
      var more := WriteAll(enc, fs[1..]) + tail;
      ReadsBackWhatWasWritten(enc, dec, fs[1..], tail);
      ReadsFirst(enc, dec, fs[0], more);
      assert ReadAll(dec, Write(enc, fs[0]) + more).0 == fs + after by { Regroup(fs, after); }
      WriteAllHead(enc, fs, tail);
    }
  }

  /** A cut inside a frame is an error, never a different frame. */
  lemma CutFrameIsError<F(!new)>(enc: F -> seq<byte>, dec: seq<byte> -> Option<F>, f: F, n: nat)
    requires Fits(enc(f)) && n < |Write(enc, f)|
    ensures ReadOne(dec, Write(enc, f)[..n]) == Error
  {
    if n >= 4 { assert Write(enc, f)[..n][..4] == Header(|enc(f)|); }
  }

  /** How many frames arrive whole in the first `n` bytes. */
  function Complete<F>(enc: F -> seq<byte>, fs: seq<F>, n: nat): nat
    requires Writable(enc, fs)
    decreases fs
  {
    if fs == [] || n < |Write(enc, fs[0])| then 0
    else 1 + Complete(enc, fs[1..], n - |Write(enc, fs[0])|)
  }

  /** That many frames fit in `n` bytes and no more do. */
  lemma {:induction false} CompleteIsExact<F>(enc: F -> seq<byte>, fs: seq<F>, n: nat)
    requires Writable(enc, fs) && n < |WriteAll(enc, fs)|
    ensures Complete(enc, fs, n) < |fs|
    ensures |WriteAll(enc, fs[..Complete(enc, fs, n)])| <= n < |WriteAll(enc, fs[..Complete(enc, fs, n) + 1])|
    decreases fs
  {
    var first := |Write(enc, fs[0])|;
    if n < first {
      WriteAllSnoc(enc, fs, 0);
    } else {
      CompleteIsExact(enc, fs[1..], n - first);
      var k := Complete(enc, fs[1..], n - first);
      WriteAllSnoc(enc, fs, k);
      WriteAllSnoc(enc, fs, k + 1);
    }
  }

  /** Any strict prefix of a written stream yields its complete frames, then an error. */
  lemma {:induction false} PrefixYieldsCompleteFrames<F(!new)>(
    enc: F -> seq<byte>, dec: seq<byte> -> Option<F>, fs: seq<F>, n: nat)
    requires RoundTrips(enc, dec) && Writable(enc, fs) && n < |WriteAll(enc, fs)|
    ensures Complete(enc, fs, n) <= |fs|
    ensures ReadAll(dec, WriteAll(enc, fs)[..n]).0 == fs[..Complete(enc, fs, n)]
    ensures ReadOne(dec, ReadAll(dec, WriteAll(enc, fs)[..n]).1) == Error
    decreases fs
  {
    ReadAllEndsInError(dec, WriteAll(enc, fs)[..n]);
    var first := Write(enc, fs[0]);
    if n < |first| {
      CutFrameIsError(enc, dec, fs[0], n);
      assert WriteAll(enc, fs)[..n] == first[..n];
    } else {
      var m := n - |first|;
      PrefixYieldsCompleteFrames(enc, dec, fs[1..], m);
      var more := WriteAll(enc, fs[1..])[..m];
      assert WriteAll(enc, fs)[..n] == first + more;
      ReadsFirst(enc, dec, fs[0], more);
      var k := Complete(enc, fs[1..], m);
      assert [fs[0]] + fs[1..][..k] == fs[..k + 1];
    }
  }

  lemma WriteAllSnoc<F>(enc: F -> seq<byte>, fs: seq<F>, k: nat)
    requires Writable(enc, fs) && k < |fs|
    ensures |WriteAll(enc, fs[..k + 1])| == |Write(enc, fs[0])| + |WriteAll(enc, fs[1..][..k])|
  {
    assert fs[..k + 1][1..] == fs[1..][..k];
  }

  lemma {:induction false} ReadAllEndsInError<F>(dec: seq<byte> -> Option<F>, stream: seq<byte>)
    ensures ReadOne(dec, ReadAll(dec, stream).1) == Error
    decreases |stream|
  {
    match ReadOne(dec, stream)
    case Error =>
    case Frame(f, rest) => ReadAllEndsInError(dec, rest);
  }

  /** A reliable byte stream between two peers. */
  class Stream {
    var data: seq<byte>

    constructor ()
      ensures data == []
    {
      data := [];
    }

    /** WriteFrame: refuses a frame that is too large, otherwise appends header and payload. */
    method WriteFrame<F>(enc: F -> seq<byte>, f: F) returns (ok: bool)
      modifies this
      ensures ok <==> |enc(f)| <= 65536
      ensures data == if ok then old(data) + Write(enc, f) else old(data)
    {
      var payload := enc(f);
      if |payload| > MAX_FRAME_BYTES { return false; }
      data := data + Header(|payload|);
      data := data + payload;
      return true;
    }

    /** ReadFrame: header, length check, payload, decode. */
    method ReadFrame<F>(dec: seq<byte> -> Option<F>) returns (r: Option<F>)
      modifies this
      ensures match ReadOne(dec, old(data))
              case Error => r == None
              case Frame(f, rest) => r == Some(f) && data == rest
    {
      if |data| < 4 { return None; }
      ghost var was := data;
      var n := Value(data[..4]);
      data := data[4..];
      if n == 0 || n > MAX_FRAME_BYTES || |data| < n { return None; }
      var buf := data[..n];
      data := data[n..];
      assert buf == was[4..4 + n] && data == was[4 + n..];
      r := dec(buf);
    }
  }
}
