/**
 * The part of JavaScript's `String.prototype.trim` that the poll application relies on:
 * it removes leading and trailing white space and keeps everything in between.
 */
module Text {

  /**
   * The characters `trim` strips: the ECMAScript WhiteSpace set (tab, vertical tab,
   * form feed, the BOM and the Unicode space separators) and the line terminators.
   */
  predicate IsWhitespace(c: char) {
    || c == '\t' || c == '\U{B}' || c == '\U{C}' || c == ' ' || c == '\U{A0}' || c == '\U{FEFF}'
    || c == '\U{1680}' || ('\U{2000}' <= c <= '\U{200A}') || c == '\U{202F}' || c == '\U{205F}' || c == '\U{3000}'
    || c == '\n' || c == '\r' || c == '\U{2028}' || c == '\U{2029}'
  }

  predicate AllWhitespace(s: string) {
    forall i :: 0 <= i < |s| ==> IsWhitespace(s[i])
  }

  /** A string with no white space at either end. */
  predicate IsTrimmed(s: string) {
    s == [] || (!IsWhitespace(s[0]) && !IsWhitespace(s[|s| - 1]))
  }

  function TrimStart(s: string): (r: string)
    ensures |r| <= |s| && r == s[|s| - |r|..]
    ensures r == [] || !IsWhitespace(r[0])
  {
    if |s| > 0 && IsWhitespace(s[0]) then TrimStart(s[1..]) else s
  }

  function TrimEnd(s: string): (r: string)
    ensures |r| <= |s| && r == s[..|r|]
    ensures r == [] || !IsWhitespace(r[|r| - 1])
    ensures |s| > 0 && !IsWhitespace(s[0]) ==> |r| > 0
  {
    if |s| > 0 && IsWhitespace(s[|s| - 1]) then TrimEnd(s[..|s| - 1]) else s
  }

  /** `s.trim()`: the middle of `s` once the white space at both ends is gone. */
  function Trim(s: string): (r: string)
    ensures |r| <= |s|
    ensures IsTrimmed(r)
  {
    var t := TrimStart(s);
    var r := TrimEnd(t);
    assert r != [] ==> r[0] == t[0];
    r
  }

  /** What `TrimStart` drops is white space. */
  lemma {:induction false} TrimStartDropsWhitespace(s: string)
    ensures AllWhitespace(s[..|s| - |TrimStart(s)|])
  {
    if |s| > 0 && IsWhitespace(s[0]) {
      TrimStartDropsWhitespace(s[1..]);
      var n := |s| - |TrimStart(s)|;
      forall k | 0 <= k < n ensures IsWhitespace(s[..n][k]) {
        if k > 0 { assert s[..n][k] == s[1..][..n - 1][k - 1]; }
      }
    }
  }

  /** What `TrimEnd` drops is white space. */
  lemma {:induction false} TrimEndDropsWhitespace(s: string)
    ensures AllWhitespace(s[|TrimEnd(s)|..])
  {
    if |s| > 0 && IsWhitespace(s[|s| - 1]) {
      var s' := s[..|s| - 1];
      TrimEndDropsWhitespace(s');
      var n := |TrimEnd(s)|;
      forall j | 0 <= j < |s| - n ensures IsWhitespace(s[n..][j]) {
        if j < |s| - 1 - n { assert s[n..][j] == s'[n..][j]; }
      }
    }
  }

  /**
   * `trim` cuts only white space, and only from the two ends: the result is the
   * slice of `s` between a white-space prefix and a white-space suffix.
   */
  lemma TrimIsMiddleSlice(s: string)
    ensures exists i :: 0 <= i && i + |Trim(s)| <= |s| && Trim(s) == s[i..i + |Trim(s)|]
                       && AllWhitespace(s[..i]) && AllWhitespace(s[i + |Trim(s)|..])
  {
    var t := TrimStart(s);
    var r := TrimEnd(t);
    var i := |s| - |t|;
    TrimStartDropsWhitespace(s);
    TrimEndDropsWhitespace(t);
    assert s[i..] == t;
    assert r == s[i..i + |r|] by { assert r == t[..|r|]; }
    assert s[i + |r|..] == t[|r|..];
  }

  /** Trimming a string that has no white space at its ends gives it back. */
  lemma TrimOfTrimmed(s: string)
    requires IsTrimmed(s)
    ensures Trim(s) == s
  {
  }

  /** `trim` is idempotent. */
  lemma TrimIdempotent(s: string)
    ensures Trim(Trim(s)) == Trim(s)
  {
    TrimOfTrimmed(Trim(s));
  }

  /** A string trims to "" exactly when it is all white space. */
  lemma TrimEmptyIff(s: string)
    ensures Trim(s) == "" <==> AllWhitespace(s)
  {
    var t := TrimStart(s);
    if AllWhitespace(s) {
      TrimStartOfWhitespace(s);
    }
    if Trim(s) == "" {
      assert t == "";
      TrimStartDropsWhitespace(s);
      assert s[..|s|] == s;
    }
  }

  /** A string of white space only loses all of it to `TrimStart`. */
  lemma {:induction false} TrimStartOfWhitespace(s: string)
    requires AllWhitespace(s)
    ensures TrimStart(s) == ""
  {
    if |s| > 0 {
      assert AllWhitespace(s[1..]) by {
        forall k | 0 <= k < |s| - 1 ensures IsWhitespace(s[1..][k]) {
          assert s[1..][k] == s[k + 1];
        }
      }
      TrimStartOfWhitespace(s[1..]);
    }
  }

  // ---------------------------------------------------------------------------
  // `filter(Boolean)` on strings

  /** `filter(Boolean)` on strings: the non-empty ones, in order. */
  function NonBlank(ts: seq<string>): (r: seq<string>)
    ensures |r| <= |ts|
    ensures forall t :: t in r ==> t in ts && t != ""
  {
    if ts == [] then []
    else (if ts[0] == "" then [] else [ts[0]]) + NonBlank(ts[1..])
  }

  /** A list with no empty string is its own filtering. */
  lemma {:induction false} NonBlankOfNonEmpty(ts: seq<string>)
    requires forall k :: 0 <= k < |ts| ==> ts[k] != ""
    ensures NonBlank(ts) == ts
  {
    if ts != [] {
      NonBlankOfNonEmpty(ts[1..]);
    }
  }

  /** The positions `base + i` of the non-empty strings `ts[i]`, in increasing order. */
  function NonBlankFrom(ts: seq<string>, base: nat): seq<nat> {
    if ts == [] then []
    else (if ts[0] == "" then [] else [base]) + NonBlankFrom(ts[1..], base + 1)
  }

  predicate StrictlyIncreasing(xs: seq<nat>) {
    forall a, b :: 0 <= a < b < |xs| ==> xs[a] < xs[b]
  }

  lemma {:induction false} NonBlankFromBounded(ts: seq<string>, base: nat)
    ensures forall k :: 0 <= k < |NonBlankFrom(ts, base)| ==>
              base <= NonBlankFrom(ts, base)[k] < base + |ts|
    ensures StrictlyIncreasing(NonBlankFrom(ts, base))
  {
    if ts != [] {
      var st := NonBlankFrom(ts[1..], base + 1);
      NonBlankFromBounded(ts[1..], base + 1);
      var head: seq<nat> := if ts[0] == "" then [] else [base];
      var sv := head + st;
      assert NonBlankFrom(ts, base) == sv;
      forall k | 0 <= k < |sv| ensures base <= sv[k] < base + |ts| {
        if k >= |head| { assert sv[k] == st[k - |head|]; }
      }
      forall a, b | 0 <= a < b < |sv| ensures sv[a] < sv[b] {
        if a >= |head| { assert sv[a] == st[a - |head|] && sv[b] == st[b - |head|]; }
        else { assert sv[b] == st[b - 1]; }
      }
    }
  }

  lemma {:induction false} NonBlankFromPicks(ts: seq<string>, base: nat)
    ensures |NonBlank(ts)| == |NonBlankFrom(ts, base)|
    ensures forall k :: 0 <= k < |NonBlankFrom(ts, base)| ==>
              base <= NonBlankFrom(ts, base)[k] < base + |ts| &&
              NonBlank(ts)[k] == ts[NonBlankFrom(ts, base)[k] - base]
  {
    if ts != [] {
      var tail := ts[1..];
      NonBlankFromPicks(tail, base + 1);
      var h := if ts[0] == "" then 0 else 1;
      var sv := NonBlankFrom(ts, base);
      var st := NonBlankFrom(tail, base + 1);
      assert sv == (if ts[0] == "" then [] else [base]) + st;
      assert NonBlank(ts) == (if ts[0] == "" then [] else [ts[0]]) + NonBlank(tail);
      forall k | 0 <= k < |sv|
        ensures base <= sv[k] < base + |ts| && NonBlank(ts)[k] == ts[sv[k] - base]
      {
        if k >= h {
          assert sv[k] == st[k - h];
          assert NonBlank(ts)[k] == NonBlank(tail)[k - h];
          assert ts[sv[k] - base] == tail[st[k - h] - (base + 1)];
        }
      }
    }
  }

  lemma {:induction false} NonBlankFromExactly(ts: seq<string>, base: nat)
    ensures forall i :: 0 <= i < |ts| ==> (base + i in NonBlankFrom(ts, base) <==> ts[i] != "")
  {
    if ts != [] {
      var tail := ts[1..];
      NonBlankFromExactly(tail, base + 1);
      NonBlankFromBounded(tail, base + 1);
      var sv := NonBlankFrom(ts, base);
      var st := NonBlankFrom(tail, base + 1);
      assert sv == (if ts[0] == "" then [] else [base]) + st;
      assert base !in st;
      forall i | 0 < i < |ts| ensures (base + i in sv <==> ts[i] != "") {
        assert ts[i] == tail[i - 1];
        assert base + i == (base + 1) + (i - 1);
      }
    }
  }

  /** Filtering keeps exactly the non-empty strings, in their order: the k-th kept string is at the k-th kept position. */
  lemma NonBlankKeepsInOrder(ts: seq<string>)
    ensures |NonBlank(ts)| == |NonBlankFrom(ts, 0)|
    ensures StrictlyIncreasing(NonBlankFrom(ts, 0))
    ensures forall k :: 0 <= k < |NonBlankFrom(ts, 0)| ==>
              NonBlankFrom(ts, 0)[k] < |ts| && NonBlank(ts)[k] == ts[NonBlankFrom(ts, 0)[k]]
    ensures forall i :: 0 <= i < |ts| ==> (i in NonBlankFrom(ts, 0) <==> ts[i] != "")
  {
    var sv := NonBlankFrom(ts, 0);
    NonBlankFromBounded(ts, 0);
    NonBlankFromPicks(ts, 0);
    NonBlankFromExactly(ts, 0);
    forall k | 0 <= k < |sv| ensures sv[k] < |ts| && NonBlank(ts)[k] == ts[sv[k]] {
      assert sv[k] - 0 == sv[k];
    }
    forall i | 0 <= i < |ts| ensures (i in sv <==> ts[i] != "") {
      assert 0 + i == i;
    }
  }
}
