/**
 * The x86 string-instruction loops of include/string.historical.h, and the `strstr` in C of include/string.h. The
 * kernel is built with include/string.h, whose `memmove` is the same code.
 */
module Strings {
  import opened Word32
  import opened Text
  import opened Wrappers

  /** What `memmove` promises: the destination holds the source as it was, everything else is as it was. */
  ghost function Moved<T>(before: seq<T>, dest: nat, src: nat, n: nat): (after: seq<T>)
    requires dest + n <= |before| && src + n <= |before|
    ensures |after| == |before|
    ensures forall k :: dest <= k < dest + n ==> after[k] == before[k - dest + src]
    ensures forall k :: 0 <= k < |after| && !(dest <= k < dest + n) ==> after[k] == before[k]
  {
    before[..dest] + before[src..src + n] + before[dest + n..]
  }

  /** `memmove`: upwards when the destination lies below the source, downwards from the last byte otherwise. */
  method MemMove<T>(mem: array<T>, dest: nat, src: nat, n: nat)
    requires dest + n <= mem.Length && src + n <= mem.Length
    modifies mem
    ensures mem[..] == Moved(old(mem[..]), dest, src, n)
    ensures mem[dest..dest + n] == old(mem[src..src + n])
    ensures forall k :: 0 <= k < mem.Length && !(dest <= k < dest + n) ==> mem[k] == old(mem[k])
  {
    ghost var before := mem[..];
    var ecx: int, esi: int, edi: int := n, src, dest;
    if dest < src {
      while ecx != 0
        invariant 0 <= ecx <= n && esi == src + (n - ecx) && edi == dest + (n - ecx)
        invariant forall k :: 0 <= k < mem.Length && !(dest <= k < edi) ==> mem[k] == before[k]
        invariant forall k :: dest <= k < edi ==> mem[k] == before[k - dest + src]
      {
        assert mem[esi] == before[esi];
        mem[edi] := mem[esi];
        esi, edi, ecx := esi + 1, edi + 1, ecx - 1;
      }
    } else {
      esi, edi := n - 1 + src, n - 1 + dest;
      while ecx != 0
        invariant 0 <= ecx <= n && esi == src + ecx - 1 && edi == dest + ecx - 1
        invariant forall k :: 0 <= k < mem.Length && !(edi < k < dest + n) ==> mem[k] == before[k]
        invariant forall k :: edi < k < dest + n ==> mem[k] == before[k - dest + src]
      {
        assert mem[esi] == before[esi];
        mem[edi] := mem[esi];
        esi, edi, ecx := esi - 1, edi - 1, ecx - 1;
      }
    }
    assert forall k :: 0 <= k < mem.Length ==> mem[k] == Moved(before, dest, src, n)[k];
  }

  /** `repne scasb` for the terminator, `notl`, `decl`: the length, read off a counter that ran down from 2^32 - 1. */
  method ScanLength(s: string) returns (length: Word)
    requires IsCString(s) && |s| < ULONG_MAX
    ensures length == |s|
  {
    var ecx: Word := ULONG_MAX;
    var edi := 0;
    var zero := false;
    while ecx != 0 && !zero
      invariant 0 <= edi <= |s| + 1 && ecx == ULONG_MAX - edi
      invariant zero <==> edi == |s| + 1
      decreases |s| + 1 - edi
    {
      zero := At(s, edi) == '\0';
      edi := edi + 1;
      ecx := ecx - 1;
    }
    var notEcx: Word := ULONG_MAX - ecx;
    length := notEcx - 1;
  }

  /** `repne scasb` for `al` in the first `count` characters. */
  method ScanFor(s: string, al: char, count: nat) returns (found: bool)
    requires 1 <= count <= |s|
    ensures found <==> al in s[..count]
  {
    var ecx, edi := count, 0;
    found := false;
    while ecx != 0 && !found
      invariant 0 <= ecx <= count && edi == count - ecx
      invariant found ==> al in s[..count]
      invariant !found ==> al !in s[..edi]
      decreases ecx
    {
      found := s[edi] == al;
      edi := edi + 1;
      ecx := ecx - 1;
    }
  }

  ghost predicate OccursAt(cs: string, ct: string, k: nat) {
    k + |ct| <= |cs| && cs[k..k + |ct|] == ct
  }

  lemma Mismatch(cs: string, ct: string, start: nat, k: nat)
    requires start + k <= |cs| && k < |ct| && At(cs, start + k) != ct[k]
    ensures !OccursAt(cs, ct, start)
  {
    if start + |ct| <= |cs| {
      assert cs[start..start + |ct|][k] == cs[start + k];
    }
  }

  /** `repe cmpsb`: how far the needle matches, and where the haystack pointer is left. */
  method CompareAt(cs: string, ct: string, start: nat, edx: nat, zero0: bool) returns (zero: bool, esi: nat)
    requires IsCString(cs) && IsCString(ct) && start <= |cs| && edx == |ct|
    requires edx == 0 ==> zero0
    ensures start <= esi <= |cs| + 1
    ensures zero <==> OccursAt(cs, ct, start)
    ensures !zero ==> start < esi && (At(cs, esi - 1) == '\0' ==> |cs| < start + |ct|)
  {
    var ecx, edi := edx, 0;
    zero, esi := zero0, start;
    while ecx != 0 && (zero || edi == 0)
      invariant 0 <= ecx <= edx && edi == edx - ecx && esi == start + edi
      invariant edi == 0 ==> esi == start
      invariant edi > 0 && zero ==> esi <= |cs| && cs[start..esi] == ct[..edi]
      invariant edi > 0 && !zero ==>
        esi <= |cs| + 1 && At(cs, esi - 1) != ct[edi - 1] && (At(cs, esi - 1) == '\0' ==> esi == |cs| + 1)
      invariant edx == 0 ==> zero
      decreases ecx
    {
      zero := At(cs, esi) == ct[edi];
      assert zero ==> cs[start..esi + 1] == cs[start..esi] + [cs[esi]] && ct[..edi + 1] == ct[..edi] + [ct[edi]];
      esi, edi, ecx := esi + 1, edi + 1, ecx - 1;
    }
    if zero {
      assert ct[..edi] == ct;
    } else {
      Mismatch(cs, ct, start, edi - 1);
    }
  }

  /** `strstr`: the first occurrence, or None when there is none. */
  method Strstr(cs: string, ct: string) returns (res: Option<nat>)
    requires IsCString(cs) && IsCString(ct) && |ct| < ULONG_MAX
    ensures res.Some? ==> OccursAt(cs, ct, res.value) && forall k :: 0 <= k < res.value ==> !OccursAt(cs, ct, k)
    ensures res.None? ==> forall k :: 0 <= k ==> !OccursAt(cs, ct, k)
  {
    var edx := ScanLength(ct);
    var zero := edx == 0;
    var start := 0;
    while true
      invariant 0 <= start <= |cs|
      invariant edx == 0 ==> zero
      invariant forall k :: 0 <= k < start ==> !OccursAt(cs, ct, k)
      decreases |cs| - start
    {
      var eax;
      zero, eax := CompareAt(cs, ct, start, edx, zero);
      if zero {
        return Some(start);
      }
      start := start + 1;
      if At(cs, eax - 1) == '\0' {
        return None;
      }
    }
  }

  /** `strstr` of include/string.h: the first occurrence too, but nothing for an empty needle. */
  method StrstrInC(orig: string, pattern: string) returns (res: Option<nat>)
    requires IsCString(orig) && IsCString(pattern)
    ensures res.Some? ==>
      OccursAt(orig, pattern, res.value) && forall k :: 0 <= k < res.value ==> !OccursAt(orig, pattern, k)
    ensures res.None? <==> pattern == "" || forall k :: 0 <= k ==> !OccursAt(orig, pattern, k)
  {
    if |pattern| > |orig| {
      return None;
    }
    var o := 0;
    while At(orig, o) != '\0'
      invariant 0 <= o <= |orig|
      invariant pattern != "" ==> forall k :: 0 <= k < o ==> !OccursAt(orig, pattern, k)
      decreases |orig| - o
    {
      if At(orig, o) == At(pattern, 0) {
        var found := MatchesFromOne(orig, pattern, o);
        if found {
          return Some(o);
        }
      } else if pattern != "" {
        Mismatch(orig, pattern, o, 0);
      }
      o := o + 1;
    }
    res := None;
  }

  /** The inner loop, entered when the first characters are equal. */
  method MatchesFromOne(orig: string, pattern: string, o: nat) returns (found: bool)
    requires IsCString(orig) && IsCString(pattern) && o < |orig| && At(orig, o) == At(pattern, 0)
    ensures found <==> OccursAt(orig, pattern, o)
    ensures pattern != ""
  {
    found := true;
    var i := 1;
    while At(pattern, i) != '\0'
      invariant 1 <= i <= |pattern| && o + i <= |orig| && orig[o..o + i] == pattern[..i]
      decreases |pattern| - i
    {
      if At(orig, o + i) != At(pattern, i) {
        Mismatch(orig, pattern, o, i);
        return false;
      }
      assert orig[o..o + i + 1] == orig[o..o + i] + [orig[o + i]] && pattern[..i + 1] == pattern[..i] + [pattern[i]];
      i := i + 1;
    }
    assert pattern[..i] == pattern;
  }
}
