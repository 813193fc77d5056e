/**
  The byte-level view of a Rust `String` that the search buffer needs: the
  buffer is a sequence of Unicode scalar values, but `String::len` counts
  UTF-8 bytes and `String::truncate` cuts at a byte offset, panicking when
  that offset falls inside a character.
 */
module Utf8 {
  import opened Wrappers

  predicate IsAscii(c: char) {
    c as int < 0x80
  }

  /** Number of bytes in the UTF-8 encoding of `c`. */
  function Width(c: char): (w: nat)
    ensures 1 <= w <= 4
    ensures w == 1 <==> IsAscii(c)
  {
    if c as int < 0x80 then 1
    else if c as int < 0x800 then 2
    else if c as int < 0x1_0000 then 3
    else 4
  }

  /** `String::len`: the length of the UTF-8 encoding, in bytes. */
  function ByteLen(s: string): (n: nat)
    ensures |s| <= n <= 4 * |s|
    ensures n == 0 <==> s == []
  {
    if s == [] then 0 else Width(s[0]) + ByteLen(s[1..])
  }

  lemma {:induction false} ByteLenAppend(s: string, c: char)
    ensures ByteLen(s + [c]) == ByteLen(s) + Width(c)
  {
    if s != [] {
      assert (s + [c])[1..] == s[1..] + [c];
      ByteLenAppend(s[1..], c);
    }
  }

  /**
    `String::truncate(newLen)`: a length at or beyond the end leaves the
    string alone; otherwise the result is the prefix whose encoding is exactly
    `newLen` bytes long, and `None` stands for the panic raised when no such
    prefix exists (the offset is not on a char boundary).
   */
  function Truncate(s: string, newLen: nat): (r: Option<string>)
    ensures newLen >= ByteLen(s) ==> r == Some(s)
    ensures r.Some? ==> r.value <= s
    ensures r.Some? ==> ByteLen(r.value) == if newLen < ByteLen(s) then newLen else ByteLen(s)
    decreases s
  {
    if newLen >= ByteLen(s) then Some(s)
    else if newLen == 0 then Some([])
    else if newLen < Width(s[0]) then None
    else
      match Truncate(s[1..], newLen - Width(s[0]))
      case None => None
      case Some(t) => Some([s[0]] + t)
  }

  /** Truncating at the byte length of any prefix keeps exactly that prefix:
      every char boundary is accepted. */
  lemma {:induction false} TruncateAtBoundary(s: string, k: nat)
    requires k <= |s|
    ensures Truncate(s, ByteLen(s[..k])) == Some(s[..k])
  {
    if k == |s| {
      assert s[..k] == s;
    } else if k > 0 {
      assert s[..k][1..] == s[1..][..k - 1];
      TruncateAtBoundary(s[1..], k - 1);
      ByteLenPrefixBelow(s, k);
      assert [s[0]] + s[1..][..k - 1] == s[..k];
    }
  }

  lemma {:induction false} ByteLenPrefixBelow(s: string, k: nat)
    requires k < |s|
    ensures ByteLen(s[..k]) < ByteLen(s)
  {
    if k > 0 {
      assert s[..k][1..] == s[1..][..k - 1];
      ByteLenPrefixBelow(s[1..], k - 1);
    }
  }

  /**
    The one truncation the search buffer performs: cutting one byte off the
    end. It removes the last character exactly when that character is a
    single byte, and panics otherwise.
   */
  lemma {:induction false} TruncateLastByte(t: string, c: char)
    ensures ByteLen(t + [c]) > 0
    ensures Truncate(t + [c], ByteLen(t + [c]) - 1) == if IsAscii(c) then Some(t) else None
  {
    ByteLenAppend(t, c);
    if t != [] {
      var s := t + [c];
      assert s[0] == t[0];
      assert s[1..] == t[1..] + [c];
      ByteLenAppend(t[1..], c);
      TruncateLastByte(t[1..], c);
      assert [t[0]] + t[1..] == t;
    }
  }

  /** `TruncateLastByte` for any non-empty string, split at its last character. */
  lemma TruncateDropsLast(s: string, n: nat)
    requires s != [] && n == ByteLen(s) - 1
    ensures Truncate(s, n) == if IsAscii(s[|s| - 1]) then Some(s[..|s| - 1]) else None
  {
    var t, c := s[..|s| - 1], s[|s| - 1];
    assert t + [c] == s;
    TruncateLastByte(t, c);
  }
}
