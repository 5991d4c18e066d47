/** `strtok` (include/string.historical.h): one buffer, cut up by successive calls that share a saved pointer. */
module Strtok {
  import opened Word32
  import opened Text
  import opened Strings
  import opened Wrappers

  ghost function Peek(mem: string, i: int): char {
    if 0 <= i < |mem| then mem[i] else '\0'
  }

  /** There is a terminator at `i` or after it. */
  ghost predicate Terminated(mem: string, i: nat) {
    exists k :: i <= k < |mem| && mem[k] == '\0'
  }

  /** The first character from `i` on that is no delimiter; the terminator counts as none. */
  ghost function TokenStart(mem: string, i: nat, ct: string): (r: nat)
    requires IsCString(ct) && Terminated(mem, i)
    ensures i <= r < |mem| && mem[r] !in ct && Terminated(mem, r)
    ensures forall k :: i <= k < r ==> mem[k] in ct
    decreases |mem| - i
  {
    if mem[i] in ct then TokenStart(mem, i + 1, ct) else i
  }

  /** The first delimiter or terminator from `i` on. */
  ghost function TokenEnd(mem: string, i: nat, ct: string): (r: nat)
    requires IsCString(ct) && Terminated(mem, i)
    ensures i <= r < |mem| && (mem[r] in ct || mem[r] == '\0')
    ensures mem[r] != '\0' ==> Terminated(mem, r + 1)
    ensures forall k :: i <= k < r ==> mem[k] !in ct && mem[k] != '\0'
    decreases |mem| - i
  {
    if mem[i] in ct || mem[i] == '\0' then i else TokenEnd(mem, i + 1, ct)
  }

  /** The buffer and `___strtok`. */
  datatype State = State(mem: string, saved: Option<nat>)

  ghost predicate Ready(st: State, s: Option<nat>, ct: string) {
    && IsCString(ct)
    && (s.Some? ==> Terminated(st.mem, s.value))
    && (s.None? && st.saved.Some? ==> Terminated(st.mem, st.saved.value))
  }

  /** One call: the state after it and the pointer it returns. */
  ghost function Call(st: State, s: Option<nat>, ct: string): (r: (State, Option<nat>))
    requires Ready(st, s, ct)
    ensures |r.0.mem| == |st.mem|
    ensures Ready(r.0, None, ct)
  {
    if (s.None? && st.saved.None?) || ct == "" then (st.(saved := None), None)
    else
      var from := if s.Some? then s.value else st.saved.value;
      var lo := TokenStart(st.mem, from, ct);
      if st.mem[lo] == '\0' then (st.(saved := None), None)
      else
        var hi := TokenEnd(st.mem, lo, ct);
        if st.mem[hi] == '\0' then (st.(saved := None), Some(lo))
        else
          CutTerminated(st.mem, hi);
          (State(st.mem[hi := '\0'], Some(hi + 1)), Some(lo))
  }

  lemma CutTerminated(mem: string, hi: nat)
    requires hi < |mem| && Terminated(mem, hi + 1)
    ensures Terminated(mem[hi := '\0'], hi + 1)
  {
    var k :| hi + 1 <= k < |mem| && mem[k] == '\0';
    assert mem[hi := '\0'][k] == '\0';
  }

  class Tokenizer {
    const buf: array<char>
    /** `___strtok` */
    var saved: Option<nat>

    ghost function View(): State
      reads this, buf
    {
      State(buf[..], saved)
    }

    constructor (buf: array<char>)
      ensures this.buf == buf && saved == None
    {
      this.buf, saved := buf, None;
    }

    /** Lines 298-305: skip delimiters. False when the terminator came first. */
    method SkipDelimiters(from: nat, ct: string, edx: nat) returns (token: bool, esi: nat)
      requires IsCString(ct) && edx == |ct| && 1 <= edx && Terminated(buf[..], from)
      ensures var lo := TokenStart(buf[..], from, ct);
        token == (buf[lo] != '\0') && (token ==> esi == lo)
    {
      ghost var mem := buf[..];
      esi := from;
      var more := true;
      while more
        invariant esi < |mem| || !more
        invariant more ==> Terminated(mem, esi) && TokenStart(mem, esi, ct) == TokenStart(mem, from, ct)
        invariant !more ==> 0 < esi && esi - 1 == TokenStart(mem, from, ct) && mem[esi - 1] != '\0'
        decreases |mem| - esi, more
      {
        var al := buf[esi];
        esi := esi + 1;
        if al == '\0' {
          assert mem[esi - 1] !in ct;
          return false, 0;
        }
        more := ScanFor(ct, al, edx);
        assert ct[..edx] == ct;
      }
      esi := esi - 1;
      token := true;
    }

    /** Lines 310-318: run to the next delimiter. False when the terminator came first. */
    method FindDelimiter(from: nat, ct: string, edx: nat) returns (delimiter: bool, esi: nat)
      requires IsCString(ct) && edx == |ct| && 1 <= edx && Terminated(buf[..], from)
      ensures var hi := TokenEnd(buf[..], from, ct);
        delimiter == (buf[hi] != '\0') && (delimiter ==> esi == hi)
    {
      ghost var mem := buf[..];
      esi := from;
      var found := false;
      while !found
        invariant !found ==> Terminated(mem, esi) && TokenEnd(mem, esi, ct) == TokenEnd(mem, from, ct)
        invariant found ==> 0 < esi <= |mem| && esi - 1 == TokenEnd(mem, from, ct) && mem[esi - 1] != '\0'
        decreases |mem| - esi, !found
      {
        var al := buf[esi];
        esi := esi + 1;
        if al == '\0' {
          return false, 0;
        }
        found := ScanFor(ct, al, edx);
        assert ct[..edx] == ct;
      }
      esi := esi - 1;
      delimiter := true;
    }

    method Strtok(s: Option<nat>, ct: string) returns (res: Option<nat>)
      requires Ready(View(), s, ct) && |ct| < ULONG_MAX
      modifies this`saved, buf
      ensures (View(), res) == Call(old(View()), s, ct)
    {
      hide TokenStart, TokenEnd;
      var esi := s;
      if s.None? {
        if saved.None? {
          return None;
        }
        esi := saved;
      }
      var edx := ScanLength(ct);
      if edx == 0 {
        saved := None;
        return None;
      }
      var token, lo := SkipDelimiters(esi.value, ct, edx);
      if !token || buf[lo] == '\0' {
        saved := None;
        return None;
      }
      var delimiter, hi := FindDelimiter(lo, ct, edx);
      if delimiter && buf[hi] != '\0' {
        buf[hi] := '\0';
        saved := Some(hi + 1);
      } else {
        saved := None;
      }
      res := if buf[lo] == '\0' then None else Some(lo);
      saved := if res.None? then None else saved;
    }
  }

  /** The tokens of the text at `p`, as pairs of start and end. */
  ghost function Tokens(mem: string, p: nat, ct: string): (r: seq<(nat, nat)>)
    requires IsCString(ct) && Terminated(mem, p)
    decreases |mem| - p
  {
    var lo := TokenStart(mem, p, ct);
    if mem[lo] == '\0' then []
    else
      var hi := TokenEnd(mem, lo, ct);
      [(lo, hi)] + if mem[hi] == '\0' then [] else Tokens(mem, hi + 1, ct)
  }

  /** The end of the text at `p`. */
  ghost function TextEnd(mem: string, p: nat): (n: nat)
    requires Terminated(mem, p)
    ensures p <= n < |mem| && mem[n] == '\0'
    ensures forall k :: p <= k < n ==> mem[k] != '\0'
    decreases |mem| - p
  {
    if mem[p] == '\0' then p else TextEnd(mem, p + 1)
  }

  /** A nonempty run without delimiters in the text from `p` to `n`, which no neighbour could extend. */
  ghost predicate MaximalRun(mem: string, p: nat, n: nat, ct: string, run: (nat, nat))
    requires n < |mem|
  {
    && p <= run.0 < run.1 <= n
    && (forall k :: run.0 <= k < run.1 ==> mem[k] !in ct)
    && (run.0 == p || mem[run.0 - 1] in ct)
    && (run.1 == n || mem[run.1] in ct)
  }

  lemma {:induction false} TextEndAfter(mem: string, p: nat, q: nat)
    requires Terminated(mem, p) && p <= q <= TextEnd(mem, p)
    ensures Terminated(mem, q) && TextEnd(mem, q) == TextEnd(mem, p)
    decreases q - p
  {
    if p < q {
      TextEndAfter(mem, p + 1, q);
    }
  }

  /** The tokens are the maximal delimiter-free runs, all of them and nothing else, in order. */
  lemma {:induction false} TokensAreMaximalRuns(mem: string, p: nat, ct: string)
    requires IsCString(ct) && Terminated(mem, p)
    ensures forall run: (nat, nat) :: run in Tokens(mem, p, ct) <==> MaximalRun(mem, p, TextEnd(mem, p), ct, run)
    ensures forall i, j :: 0 <= i < j < |Tokens(mem, p, ct)| ==> Tokens(mem, p, ct)[i].1 < Tokens(mem, p, ct)[j].0
    decreases |mem| - p
  {
    hide Tokens, TokenStart, TokenEnd, TextEnd, MaximalRun;
    TokensUnfold(mem, p, ct);
    var t, n := Tokens(mem, p, ct), TextEnd(mem, p);
    var lo := TokenStart(mem, p, ct);
    if mem[lo] == '\0' {
      NoRuns(mem, p, lo, n, ct);
    } else {
      var hi := TokenEnd(mem, lo, ct);
      TokenWithinText(mem, p, lo, hi, n, ct);
      if mem[hi] != '\0' {
        TextEndAfter(mem, p, hi + 1);
        TokensAreMaximalRuns(mem, hi + 1, ct);
        TokensStartAfter(mem, hi + 1, ct);
      }
      forall run: (nat, nat) ensures run in t <==> MaximalRun(mem, p, n, ct, run) {
        RunIsFirstOrLater(mem, p, lo, hi, n, ct, run);
      }
    }
  }

  lemma NoRuns(mem: string, p: nat, lo: nat, n: nat, ct: string)
    requires p <= lo < |mem| && mem[lo] == '\0' && p <= n < |mem|
    requires forall k :: p <= k < lo ==> mem[k] in ct
    requires forall k :: p <= k < n ==> mem[k] != '\0'
    ensures forall run: (nat, nat) :: !MaximalRun(mem, p, n, ct, run)
  {
    forall run: (nat, nat) ensures !MaximalRun(mem, p, n, ct, run) {
      var first := Peek(mem, run.0);
    }
  }

  lemma {:induction false} TokensStartAfter(mem: string, p: nat, ct: string)
    requires IsCString(ct) && Terminated(mem, p)
    requires forall run: (nat, nat) :: run in Tokens(mem, p, ct) ==> MaximalRun(mem, p, TextEnd(mem, p), ct, run)
    ensures forall i :: 0 <= i < |Tokens(mem, p, ct)| ==> p <= Tokens(mem, p, ct)[i].0
  {
    forall i | 0 <= i < |Tokens(mem, p, ct)| ensures p <= Tokens(mem, p, ct)[i].0 {
      assert Tokens(mem, p, ct)[i] in Tokens(mem, p, ct);
    }
  }

  lemma TokenWithinText(mem: string, p: nat, lo: nat, hi: nat, n: nat, ct: string)
    requires IsCString(ct) && Terminated(mem, p) && n == TextEnd(mem, p)
    requires lo == TokenStart(mem, p, ct) && mem[lo] != '\0' && hi == TokenEnd(mem, lo, ct)
    ensures lo < hi <= n && (mem[hi] == '\0' <==> hi == n)
  {
    var last := Peek(mem, n);
  }

  /** A maximal run is the first token, or a maximal run of the text behind its delimiter. */
  lemma RunIsFirstOrLater(mem: string, p: nat, lo: nat, hi: nat, n: nat, ct: string, run: (nat, nat))
    requires IsCString(ct) && p <= lo < hi <= n < |mem|
    requires forall k :: p <= k < lo ==> mem[k] in ct
    requires forall k :: lo <= k < hi ==> mem[k] !in ct
    requires hi == n || mem[hi] in ct
    ensures MaximalRun(mem, p, n, ct, run) <==>
      run == (lo, hi) || (hi < n && MaximalRun(mem, hi + 1, n, ct, run))
  {
    if MaximalRun(mem, p, n, ct, run) {
      var around := [Peek(mem, run.0 - 1), Peek(mem, run.0), Peek(mem, run.1), Peek(mem, hi)];
    }
  }

  /** The tokens at `p` depend on nothing before `p`. */
  lemma {:induction false} TokenStartSuffix(a: string, b: string, p: nat, ct: string)
    requires IsCString(ct) && |a| == |b| && Terminated(a, p) && Terminated(b, p)
    requires forall k :: p <= k < |a| ==> a[k] == b[k]
    ensures TokenStart(a, p, ct) == TokenStart(b, p, ct)
    decreases |a| - p
  {
    if a[p] in ct {
      TokenStartSuffix(a, b, p + 1, ct);
    }
  }

  lemma {:induction false} TokenEndSuffix(a: string, b: string, p: nat, ct: string)
    requires IsCString(ct) && |a| == |b| && Terminated(a, p) && Terminated(b, p)
    requires forall k :: p <= k < |a| ==> a[k] == b[k]
    ensures TokenEnd(a, p, ct) == TokenEnd(b, p, ct)
    decreases |a| - p
  {
    if !(a[p] in ct || a[p] == '\0') {
      TokenEndSuffix(a, b, p + 1, ct);
    }
  }

  lemma TokensUnfold(mem: string, p: nat, ct: string)
    requires IsCString(ct) && Terminated(mem, p)
    ensures var lo := TokenStart(mem, p, ct);
      && (mem[lo] == '\0' ==> Tokens(mem, p, ct) == [])
      && (mem[lo] != '\0' ==>
           var hi := TokenEnd(mem, lo, ct);
           Tokens(mem, p, ct) == [(lo, hi)] + if mem[hi] == '\0' then [] else Tokens(mem, hi + 1, ct))
  {
    hide TokenStart, TokenEnd;
  }

  lemma {:induction false} TokensSuffix(a: string, b: string, p: nat, ct: string)
    requires IsCString(ct) && |a| == |b| && Terminated(a, p) && Terminated(b, p)
    requires forall k :: p <= k < |a| ==> a[k] == b[k]
    ensures Tokens(a, p, ct) == Tokens(b, p, ct)
    decreases |a| - p
  {
    hide Tokens, TokenStart, TokenEnd;
    TokensUnfold(a, p, ct);
    TokensUnfold(b, p, ct);
    TokenStartSuffix(a, b, p, ct);
    var lo := TokenStart(a, p, ct);
    if a[lo] != '\0' {
      TokenEndSuffix(a, b, lo, ct);
      var hi := TokenEnd(a, lo, ct);
      if a[hi] != '\0' {
        TokensSuffix(a, b, hi + 1, ct);
      }
    }
  }

  /** `count` calls with one delimiter set: the first names the text, the others pass NULL. */
  ghost function Calls(st: State, s: Option<nat>, ct: string, count: nat): (r: (State, seq<Option<nat>>))
    requires Ready(st, s, ct)
    ensures |r.1| == count
    decreases count
  {
    if count == 0 then (st, [])
    else
      var (next, res) := Call(st, s, ct);
      var (last, more) := Calls(next, None, ct, count - 1);
      (last, [res] + more)
  }

  /** A terminator written at the end of each of the first `m` tokens. */
  ghost function Cut(mem: string, tokens: seq<(nat, nat)>, m: nat): (r: string)
    requires m <= |tokens| && forall k :: 0 <= k < |tokens| ==> tokens[k].1 < |mem|
    ensures |r| == |mem|
    decreases m
  {
    if m == 0 then mem else Cut(mem[tokens[0].1 := '\0'], tokens[1..], m - 1)
  }

  lemma {:induction false} TokensFit(mem: string, p: nat, ct: string)
    requires IsCString(ct) && Terminated(mem, p)
    ensures forall k :: 0 <= k < |Tokens(mem, p, ct)| ==> Tokens(mem, p, ct)[k].1 < |mem|
    decreases |mem| - p
  {
    var lo := TokenStart(mem, p, ct);
    if mem[lo] != '\0' {
      var hi := TokenEnd(mem, lo, ct);
      if mem[hi] != '\0' {
        TokensFit(mem, hi + 1, ct);
      }
    }
  }

  lemma {:induction false} NothingSaved(st: State, ct: string, count: nat)
    requires IsCString(ct) && st.saved.None?
    ensures Calls(st, None, ct, count).0 == st
    ensures forall i :: 0 <= i < count ==> Calls(st, None, ct, count).1[i] == None
  {
    if count > 0 {
      NothingSaved(st, ct, count - 1);
    }
  }

  /** Passing NULL is passing the saved pointer. */
  lemma NullMeansSaved(st: State, ct: string, count: nat)
    requires IsCString(ct) && st.saved.Some? && Terminated(st.mem, st.saved.value)
    ensures Calls(st, None, ct, count).1 == Calls(st, st.saved, ct, count).1
    ensures Calls(st, None, ct, count).0.mem == Calls(st, st.saved, ct, count).0.mem
  {
    if count > 0 {
      assert Call(st, None, ct) == Call(st, st.saved, ct);
    }
  }

  /**
   * Successive calls return the tokens in order, then NULL for ever, and change nothing in the buffer
   * but the one character behind each token returned.
   */
  lemma {:induction false} CallsReturnTokens(st: State, p: nat, ct: string, count: nat)
    requires IsCString(ct) && ct != "" && Terminated(st.mem, p)
    ensures forall k :: 0 <= k < |Tokens(st.mem, p, ct)| ==> Tokens(st.mem, p, ct)[k].1 < |st.mem|
    ensures var t := Tokens(st.mem, p, ct);
      var (last, res) := Calls(st, Some(p), ct, count);
      && last.mem == Cut(st.mem, t, Min(count, |t|))
      && forall i :: 0 <= i < count ==> res[i] == if i < |t| then Some(t[i].0) else None
    decreases count
  {
    hide Tokens, Call;
    TokensFit(st.mem, p, ct);
    if count > 0 {
      var t := Tokens(st.mem, p, ct);
      var (next, res) := Call(st, Some(p), ct);
      FirstCall(st, p, ct);
      if next.saved.None? {
        NothingSaved(next, ct, count - 1);
      } else {
        NullMeansSaved(next, ct, count - 1);
        CallsReturnTokens(next, next.saved.value, ct, count - 1);
      }
    }
  }

  /** One call takes the first token off the list. */
  lemma {:induction false} FirstCall(st: State, p: nat, ct: string)
    requires IsCString(ct) && ct != "" && Terminated(st.mem, p)
    ensures var t := Tokens(st.mem, p, ct);
      var (next, res) := Call(st, Some(p), ct);
      && (t == [] ==> res == None && next.saved == None && next.mem == st.mem)
      && (t != [] ==> t[0].1 < |st.mem| && res == Some(t[0].0) && next.mem == st.mem[t[0].1 := '\0'])
      && (t != [] && next.saved.None? ==> |t| == 1)
      && (next.saved.Some? ==> t != [] && Terminated(next.mem, next.saved.value)
                               && t[1..] == Tokens(next.mem, next.saved.value, ct))
  {
    hide Tokens, TokenStart, TokenEnd;
    TokensUnfold(st.mem, p, ct);
    var (next, res) := Call(st, Some(p), ct);
    if next.saved.Some? {
      TokensSuffix(st.mem, next.mem, next.saved.value, ct);
    }
  }

  /** Each token returned can be read where it was in the text, and ends there. */
  lemma {:induction false} CutKeepsTokens(mem: string, tokens: seq<(nat, nat)>, m: nat)
    requires m <= |tokens| && forall k :: 0 <= k < |tokens| ==> tokens[k].0 < tokens[k].1 < |mem|
    requires forall i, j :: 0 <= i < j < |tokens| ==> tokens[i].1 < tokens[j].0
    ensures forall i :: 0 <= i < m ==> Cut(mem, tokens, m)[tokens[i].1] == '\0'
    ensures forall k :: 0 <= k < |mem| && (forall i :: 0 <= i < m ==> k != tokens[i].1) ==>
      Cut(mem, tokens, m)[k] == mem[k]
    decreases m
  {
    if m > 0 {
      var rest, cut := tokens[1..], Cut(mem, tokens, m);
      CutKeepsTokens(mem[tokens[0].1 := '\0'], rest, m - 1);
      forall i | 0 <= i < m ensures cut[tokens[i].1] == '\0' {
        if i > 0 {
          assert rest[i - 1] == tokens[i];
        } else {
          assert forall k :: 0 <= k < m - 1 ==> rest[k] == tokens[k + 1];
        }
      }
      forall k | 0 <= k < |mem| && (forall i :: 0 <= i < m ==> k != tokens[i].1) ensures cut[k] == mem[k] {
        assert forall i :: 0 <= i < m - 1 ==> rest[i] == tokens[i + 1];
      }
    }
  }

  /** Without delimiters there are no tokens: the text is left alone and NULL is returned every time. */
  lemma {:induction false} NoDelimiters(st: State, p: nat, count: nat)
    requires Terminated(st.mem, p)
    ensures Calls(st, Some(p), "", count).0.mem == st.mem
    ensures forall i :: 0 <= i < count ==> Calls(st, Some(p), "", count).1[i] == None
  {
    if count > 0 {
      NothingSaved(st.(saved := None), "", count - 1);
    }
  }

  /** Successive calls return the tokens exactly when there is a delimiter, or no text for a token. */
  lemma {:induction false} CallsReturnTokensWhen(st: State, p: nat, ct: string, count: nat)
    requires IsCString(ct) && Terminated(st.mem, p) && 0 < count
    ensures ct != "" || st.mem[p] == '\0' <==>
      var t := Tokens(st.mem, p, ct);
      forall i :: 0 <= i < count ==> Calls(st, Some(p), ct, count).1[i] == if i < |t| then Some(t[i].0) else None
  {
    hide Calls;
    if ct != "" {
      CallsReturnTokens(st, p, ct, count);
    } else {
      NoDelimiters(st, p, count);
      var first := Calls(st, Some(p), ct, count).1[0];
    }
  }
}
