/** C strings, and runs of characters written into a buffer. */
module Text {
  import opened Word32

  /** The text of a C string: everything before its terminator. */
  predicate IsCString(s: string) {
    '\0' !in s
  }

  /** The character a C pointer `i` places into the string reads. The terminator can be read, nothing after it can. */
  function At(s: string, i: nat): char
    requires i <= |s|
  {
    if i < |s| then s[i] else '\0'
  }

  function Repeat(c: char, n: nat): (r: string)
    ensures |r| == n
    ensures forall i :: 0 <= i < n ==> r[i] == c
  {
    seq(n, _ => c)
  }

  /** `after` is `before` with `text` written at position `at`, and nothing else changed. */
  ghost predicate Wrote(before: seq<char>, after: seq<char>, at: nat, text: string) {
    && at + |text| <= |before| == |after|
    && forall k :: 0 <= k < |after| ==>
        after[k] == if at <= k < at + |text| then text[k - at] else before[k]
  }

  lemma WroteNothing(a: seq<char>, at: nat)
    requires at <= |a|
    ensures Wrote(a, a, at, [])
  {
  }

  /** Writing one text and then another right behind it is writing their concatenation. */
  lemma WroteThen(a: seq<char>, b: seq<char>, c: seq<char>, at: nat, first: string, second: string)
    requires Wrote(a, b, at, first)
    requires Wrote(b, c, at + |first|, second)
    ensures Wrote(a, c, at, first + second)
  {
  }

  method Put(buf: array<char>, str: nat, c: char) returns (next: nat)
    requires str < buf.Length
    modifies buf
    ensures next == str + 1
    ensures Wrote(old(buf[..]), buf[..], str, [c])
  {
    buf[str] := c;
    next := str + 1;
  }

  /** `while (size-- > 0) *str++ = c;` */
  method Fill(buf: array<char>, str: nat, size: Int32, c: char) returns (next: nat, left: Int32)
    requires INT_MIN < size
    requires str + Max(0, size) <= buf.Length
    modifies buf
    ensures next == str + Max(0, size)
    ensures left == (if size <= 0 then size else 0) - 1
    ensures Wrote(old(buf[..]), buf[..], str, Repeat(c, Max(0, size)))
  {
    next, left := str, size;
    while left > 0
      invariant str <= next <= buf.Length
      invariant size <= 0 ==> next == str && left == size
      invariant size > 0 ==> 0 <= left && next - str == size - left
      invariant forall k :: 0 <= k < buf.Length ==> buf[k] == if str <= k < next then c else old(buf[k])
    {
      buf[next] := c;
      next := next + 1;
      left := left - 1;
    }
    left := left - 1;
  }
}
