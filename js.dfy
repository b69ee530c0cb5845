/** The few JavaScript built-ins the rule engine relies on: truthiness of a
    possibly-missing string, String.prototype.trim, String.prototype.toLowerCase
    and Array.prototype.filter, together with the facts the engine needs
    about them. */
module Js {

  /** A record field that may hold a string or be null/undefined. */
  datatype Option<+T> = None | Some(value: T)

  /** JavaScript truthiness of a string-or-null value: null, undefined and
      the empty string are falsy, every other string is truthy. */
  predicate Truthy(v: Option<string>) {
    v.Some? && v.value != ""
  }

  /** `v || ''` */
  function OrEmpty(v: Option<string>): string {
    if Truthy(v) then v.value else ""
  }

  // ---------------------------------------------------------------------
  // String.prototype.trim

  /** The WhiteSpace and LineTerminator code points that trim removes
      (sections 12.2 and 12.3 of ECMA-262). */
  predicate IsWhiteSpace(ch: char) {
    ch == '\t' || ch == '\n' || ch == '\U{000B}' || ch == '\U{000C}' || ch == '\r' ||
    ch == ' ' || ch == '\U{00A0}' || ch == '\U{1680}' ||
    ('\U{2000}' <= ch <= '\U{200A}') ||
    ch == '\U{2028}' || ch == '\U{2029}' || ch == '\U{202F}' || ch == '\U{205F}' ||
    ch == '\U{3000}' || ch == '\U{FEFF}'
  }

  function TrimStart(s: string): string
    decreases |s|
  {
    if s != [] && IsWhiteSpace(s[0]) then TrimStart(s[1..]) else s
  }

  function TrimEnd(s: string): string
    decreases |s|
  {
    if s != [] && IsWhiteSpace(s[|s| - 1]) then TrimEnd(s[..|s| - 1]) else s
  }

  function Trim(s: string): string {
    TrimEnd(TrimStart(s))
  }

  /** A string with no white space at either end. */
  predicate Trimmed(t: string) {
    t == [] || (!IsWhiteSpace(t[0]) && !IsWhiteSpace(t[|t| - 1]))
  }

  predicate AllWhiteSpace(s: string) {
    forall k :: 0 <= k < |s| ==> IsWhiteSpace(s[k])
  }

  /** TrimStart drops exactly the leading white space: what it returns is a
      suffix of its input, everything before that suffix is white space, and
      the suffix does not start with white space. */
  lemma {:induction false} TrimStartDropsPrefix(s: string)
    ensures |TrimStart(s)| <= |s|
    ensures TrimStart(s) == s[|s| - |TrimStart(s)|..]
    ensures AllWhiteSpace(s[..|s| - |TrimStart(s)|])
    ensures TrimStart(s) != [] ==> !IsWhiteSpace(TrimStart(s)[0])
  {
    if s != [] && IsWhiteSpace(s[0]) {
      TrimStartDropsPrefix(s[1..]);
      var t := TrimStart(s[1..]);
      assert s[1..][|s| - 1 - |t|..] == s[|s| - |t|..];
      var dropped := s[..|s| - |t|];
      assert dropped == [s[0]] + s[1..][..|s| - 1 - |t|];
      forall k | 0 <= k < |dropped|
        ensures IsWhiteSpace(dropped[k])
      {
        if k > 0 {
          assert dropped[k] == s[1..][..|s| - 1 - |t|][k - 1];
        }
      }
    }
  }

  /** TrimEnd drops exactly the trailing white space. */
  lemma {:induction false} TrimEndDropsSuffix(s: string)
    ensures |TrimEnd(s)| <= |s|
    ensures TrimEnd(s) == s[..|TrimEnd(s)|]
    ensures AllWhiteSpace(s[|TrimEnd(s)|..])
    ensures TrimEnd(s) != [] ==> !IsWhiteSpace(TrimEnd(s)[|TrimEnd(s)| - 1])
  {
    if s != [] && IsWhiteSpace(s[|s| - 1]) {
      var p := s[..|s| - 1];
      TrimEndDropsSuffix(p);
      var t := TrimEnd(p);
      assert p[..|t|] == s[..|t|];
      var dropped := s[|t|..];
      assert dropped == p[|t|..] + [s[|s| - 1]];
      forall k | 0 <= k < |dropped|
        ensures IsWhiteSpace(dropped[k])
      {
        if k < |s| - 1 - |t| {
          assert dropped[k] == p[|t|..][k];
        }
      }
    }
  }

  /** TrimEnd never exposes leading white space that was not already there. */
  lemma {:induction false} TrimEndKeepsFirst(s: string)
    requires s != [] && !IsWhiteSpace(s[0])
    ensures TrimEnd(s) != [] ==> TrimEnd(s)[0] == s[0]
  {
    TrimEndDropsSuffix(s);
  }

  /** Trim drops only white space, from the ends, and keeps a slice of its
      input. */
  lemma TrimSliceOfInput(s: string)
    ensures |Trim(s)| <= |TrimStart(s)| <= |s|
    ensures Trim(s) == s[|s| - |TrimStart(s)|..|s| - |TrimStart(s)| + |Trim(s)|]
    ensures AllWhiteSpace(s[..|s| - |TrimStart(s)|])
    ensures AllWhiteSpace(s[|s| - |TrimStart(s)| + |Trim(s)|..])
  {
    TrimStartDropsPrefix(s);
    var u := TrimStart(s);
    var i := |s| - |u|;
    TrimEndDropsSuffix(u);
    var t := TrimEnd(u);
    assert u == s[i..];
    assert t == s[i..i + |t|] by {
      assert u[..|t|] == s[i..][..|t|];
    }
    assert s[i + |t|..] == u[|t|..];
  }

  /** What trim returns has no white space at either end. */
  lemma TrimIsTrimmed(s: string)
    ensures Trimmed(Trim(s))
  {
    TrimStartDropsPrefix(s);
    var u := TrimStart(s);
    TrimEndDropsSuffix(u);
    if u != [] {
      TrimEndKeepsFirst(u);
    }
  }

  /** trim gives "" exactly for all-white-space input. */
  lemma TrimBlank(s: string)
    ensures Trim(s) == "" <==> AllWhiteSpace(s)
  {
    TrimSliceOfInput(s);
    TrimStartDropsPrefix(s);
    var u := TrimStart(s);
    var i := |s| - |u|;
    if Trim(s) == "" {
      TrimEndDropsSuffix(u);
      assert u[|Trim(s)|..] == u;
      assert u == [];
      assert s[..i] == s;
    } else {
      assert s[i] == Trim(s)[0];
      TrimIsTrimmed(s);
    }
  }

  /** trim() returns a contiguous slice of its input with only white space
      cut from either end, the slice has no white space at its ends, and it
      is empty exactly when the input is all white space. */
  lemma TrimSlice(s: string)
    ensures |Trim(s)| <= |TrimStart(s)| <= |s|
    ensures Trimmed(Trim(s))
    ensures Trim(s) == "" <==> AllWhiteSpace(s)
    ensures Trim(s) == s[|s| - |TrimStart(s)|..|s| - |TrimStart(s)| + |Trim(s)|]
    ensures AllWhiteSpace(s[..|s| - |TrimStart(s)|])
    ensures AllWhiteSpace(s[|s| - |TrimStart(s)| + |Trim(s)|..])
  {
    TrimSliceOfInput(s);
    TrimIsTrimmed(s);
    TrimBlank(s);
  }

  /** trim() leaves a string without outer white space unchanged, so trimming
      twice is the same as trimming once. */
  lemma TrimIdempotent(s: string)
    ensures Trimmed(s) ==> Trim(s) == s
    ensures Trim(Trim(s)) == Trim(s)
  {
    TrimSlice(s);
    forall t | Trimmed(t)
      ensures Trim(t) == t
    {
      assert TrimStart(t) == t;
      assert TrimEnd(t) == t;
    }
  }

  // ---------------------------------------------------------------------
  // String.prototype.toLowerCase

  /** Lower-casing of one character; only the ASCII letters are mapped. */
  function LowerChar(ch: char): char {
    if 'A' <= ch <= 'Z' then (ch as int + ('a' as int - 'A' as int)) as char else ch
  }

  function ToLower(s: string): string {
    seq(|s|, k requires 0 <= k < |s| => LowerChar(s[k]))
  }

  /** Lower-casing keeps the length, leaves no ASCII capital behind and is
      idempotent, so comparing lower-cased strings is an equivalence that
      relates exactly the strings differing only in letter case. */
  lemma ToLowerFacts(s: string, t: string)
    ensures |ToLower(s)| == |s|
    ensures forall k :: 0 <= k < |s| ==> !('A' <= ToLower(s)[k] <= 'Z')
    ensures ToLower(ToLower(s)) == ToLower(s)
    ensures ToLower(s) == ToLower(t) <==>
              |s| == |t| && forall k :: 0 <= k < |s| ==> LowerChar(s[k]) == LowerChar(t[k])
  {
    if |s| == |t| && forall k :: 0 <= k < |s| ==> LowerChar(s[k]) == LowerChar(t[k]) {
      assert forall k :: 0 <= k < |s| ==> ToLower(s)[k] == ToLower(t)[k];
    }
    if ToLower(s) == ToLower(t) {
      assert forall k :: 0 <= k < |s| ==> LowerChar(s[k]) == ToLower(s)[k] == ToLower(t)[k];
    }
  }

  // ---------------------------------------------------------------------
  // Array.prototype.filter

  /** The elements of `s` that satisfy `p`, in their original order. */
  function Filter<T>(s: seq<T>, p: T -> bool): (r: seq<T>)
    ensures |r| <= |s|
    ensures forall x :: x in r ==> x in s && p(x)
  {
    if s == [] then []
    else (if p(s[0]) then [s[0]] else []) + Filter(s[1..], p)
  }

  /** `a` can be obtained from `b` by deleting elements, without reordering. */
  predicate IsSubsequence<T(==)>(a: seq<T>, b: seq<T>)
    decreases |b|
  {
    if a == [] then true
    else if b == [] then false
    else if a[0] == b[0] then IsSubsequence(a[1..], b[1..])
    else IsSubsequence(a, b[1..])
  }

  /** filter is stable: its result is an order-preserving subsequence. */
  lemma {:induction false} FilterIsSubsequence<T>(s: seq<T>, p: T -> bool)
    ensures IsSubsequence(Filter(s, p), s)
  {
    if s != [] {
      FilterIsSubsequence(s[1..], p);
      var r := Filter(s, p);
      if p(s[0]) {
        assert r[0] == s[0] && r[1..] == Filter(s[1..], p);
      } else {
        assert r == Filter(s[1..], p);
        assert r != [] ==> r[0] in r;
      }
    }
  }

  /** filter keeps every copy of a satisfying element and no copy of any
      other element. */
  lemma {:induction false} FilterCount<T>(s: seq<T>, p: T -> bool, x: T)
    ensures multiset(Filter(s, p))[x] == if p(x) then multiset(s)[x] else 0
  {
    if s != [] {
      FilterCount(s[1..], p, x);
      assert s == [s[0]] + s[1..];
    }
  }

  lemma {:induction false} FilterMembership<T>(s: seq<T>, p: T -> bool, x: T)
    ensures x in Filter(s, p) <==> x in s && p(x)
  {
    FilterCount(s, p, x);
  }

  /** filter distributes over concatenation. */
  lemma {:induction false} FilterAppend<T>(s: seq<T>, t: seq<T>, p: T -> bool)
    ensures Filter(s + t, p) == Filter(s, p) + Filter(t, p)
  {
    if s != [] {
      FilterAppend(s[1..], t, p);
      var head := if p(s[0]) then [s[0]] else [];
      assert (s + t)[0] == s[0];
      assert (s + t)[1..] == s[1..] + t;
      calc {
        Filter(s + t, p);
        head + Filter(s[1..] + t, p);
        head + (Filter(s[1..], p) + Filter(t, p));
        (head + Filter(s[1..], p)) + Filter(t, p);
      }
    } else {
      assert s + t == t;
    }
  }

  /** A predicate that holds everywhere keeps the whole list, in order. */
  lemma {:induction false} FilterKeepsAll<T>(s: seq<T>, p: T -> bool)
    requires forall k :: 0 <= k < |s| ==> p(s[k])
    ensures Filter(s, p) == s
  {
    if s != [] {
      FilterKeepsAll(s[1..], p);
    }
  }
}
