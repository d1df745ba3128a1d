/**
 * The read-only byte view of geecache/byteview.go. A `ByteView` is a value:
 * its bytes never leave it except as a fresh copy, so holding it as an
 * immutable sequence is exact; the copies handed out are fresh arrays.
 */
module CacheByteView {
  import opened Utf8

  datatype ByteView = ByteView(b: seq<byte>) {

    /** ByteView.Len: the number of bytes held, never fewer than the characters they read as. */
    function Len(): (n: nat)
      ensures n == |b|
      ensures |String()| <= n
    {
      |b|
    }

    /**
     * ByteView.String: the bytes read as text (a Go `string(b)` conversion).
     * No more characters than bytes; bytes below 0x80 are the characters themselves.
     */
    function String(): (s: string)
      ensures |s| <= |b|
      ensures (forall i :: 0 <= i < |b| ==> b[i] < 0x80) ==>
                |s| == |b| && forall i :: 0 <= i < |b| ==> s[i] as int == b[i] as int
    {
      DecodeLength(b);
      if forall i :: 0 <= i < |b| ==> b[i] < 0x80 then
        DecodeAscii(b);
        Decode(b)
      else Decode(b)
    }

    /**
     * ByteView.ByteSlice: a fresh copy of the bytes. Being fresh, the copy
     * shares nothing with the view, so writing to it cannot change the view.
     */
    method ByteSlice() returns (s: array<byte>)
      ensures fresh(s)
      ensures s[..] == b && s.Length == Len()
    {
      s := CloneBytes(b);
    }
  }

  /** cloneBytes: a new slice of the same length, filled by `copy`. */
  method CloneBytes(src: seq<byte>) returns (dst: array<byte>)
    ensures fresh(dst)
    ensures dst.Length == |src| && dst[..] == src
  {
    dst := new byte[|src|];
    var i := 0;
    while i < |src|
      invariant 0 <= i <= |src|
      invariant dst[..i] == src[..i]
    {
      dst[i] := src[i];
      i := i + 1;
    }
  }

  /** A view over the bytes of a text reads back as that text, and its length is their count. */
  lemma ViewOfText(s: string)
    ensures ByteView(Encode(s)).String() == s
    ensures ByteView(Encode(s)).Len() == |Encode(s)|
  {
    DecodeEncode(s);
  }
}
