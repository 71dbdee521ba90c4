/** Fixed C buffers as the Go code sees them: a buffer the native side
    writes into, and C.GoString, which reads text up to the first NUL. */
module CStrings {
  import opened SmiTypes

  /** A zero-filled C buffer of n bytes (Go's make, or a zeroed C array). */
  function Zeros(n: nat): (r: seq<byte>)
    ensures |r| == n && forall i :: 0 <= i < n ==> r[i] == 0
  {
    seq(n, _ => 0)
  }

  /** The buffer `buf` after the native side has written `written` at its
      start, within the buffer's capacity; the rest keeps its old content. */
  function Overlay<T>(buf: seq<T>, written: seq<T>): (r: seq<T>)
    ensures |r| == |buf|
    ensures forall i :: 0 <= i < |buf| ==> r[i] == if i < |written| then written[i] else buf[i]
  {
    if |written| >= |buf| then written[..|buf|] else written + buf[|written|..]
  }

  /** `text` is what precedes the first NUL byte of `buf`. */
  predicate TerminatedBy(buf: seq<byte>, text: seq<byte>)
  {
    |text| < |buf| && buf[..|text|] == text && buf[|text|] == 0 && 0 !in text
  }

  /** C.GoString on the first byte of `buf`: the bytes before the first
      NUL. None when `buf` holds no NUL, where the read runs past the end of
      the buffer. */
  function GoString(buf: seq<byte>): (r: Option<seq<byte>>)
    ensures r.Some? <==> 0 in buf
    ensures r.Some? ==> TerminatedBy(buf, r.value)
  {
    if buf == [] then None
    else if buf[0] == 0 then Some([])
    else
      match GoString(buf[1..])
      case None => None
      case Some(t) => Some([buf[0]] + t)
  }

  /** A buffer has only one text before its first NUL. */
  lemma TerminatedByUnique(buf: seq<byte>, t1: seq<byte>, t2: seq<byte>)
    requires TerminatedBy(buf, t1) && TerminatedBy(buf, t2)
    ensures t1 == t2
  {
  }

  /** Round trip: a NUL-free text written into a zeroed buffer with room for
      its terminator reads back as that text. */
  lemma GoStringOfWrittenText(text: seq<byte>, capacity: nat)
    requires 0 !in text && |text| < capacity
    ensures GoString(Overlay(Zeros(capacity), text)) == Some(text)
  {
    var buf := Overlay(Zeros(capacity), text);
    assert buf[..|text|] == text;
    assert buf[|text|] == 0;
    assert TerminatedBy(buf, text);
    assert 0 in buf;
    TerminatedByUnique(buf, GoString(buf).value, text);
  }

  /** A buffer of n bytes decodes to at most n - 1 bytes of text: a text
      that fills the buffer is cut to make room for the terminator. */
  lemma GoStringFitsBuffer(buf: seq<byte>)
    requires GoString(buf).Some?
    ensures |GoString(buf).value| <= |buf| - 1
  {
  }
}
