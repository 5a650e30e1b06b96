/** The string and byte-string operations of Python that the build tools lean on,
    as functions over sequences of characters. A byte buffer that only ever holds
    ASCII is modelled as a string of the same characters. */
module Text {

  datatype Result<+T> = Ok(value: T) | Err(message: string)
  {
    predicate IsFailure() { Err? }

    function PropagateFailure<U>(): Result<U>
      requires Err?
    {
      Err(message)
    }

    function Extract(): T
      requires Ok?
    {
      value
    }
  }

  datatype Option<+T> = None | Some(value: T)

  /** What has been found, and then what the rest gives, or its error. */
  function Onto<T>(found: seq<T>, rest: Result<seq<T>>): Result<seq<T>> {
    if rest.Ok? then Ok(found + rest.value) else rest
  }

  lemma OntoMore<T>(a: seq<T>, b: seq<T>, rest: Result<seq<T>>)
    ensures Onto([], rest) == rest
    ensures Onto(a, Ok([])) == Ok(a)
    ensures Onto(a, Onto(b, rest)) == Onto(a + b, rest)
  {
    assert a + [] == a;
    if rest.Ok? {
      assert [] + rest.value == rest.value && a + (b + rest.value) == a + b + rest.value;
    }
  }

  /** `s.find(c, lo, hi)` for one element, of a string or of bytes: the least index holding c, or -1. */
  function FindChar<T(==)>(s: seq<T>, c: T, lo: nat, hi: nat): (r: int)
    requires lo <= hi <= |s|
    ensures r == -1 || lo <= r < hi
    ensures r == -1 ==> forall k :: lo <= k < hi ==> s[k] != c
    ensures r != -1 ==> s[r] == c && forall k :: lo <= k < r ==> s[k] != c
    decreases hi - lo
  {
    if lo == hi then -1 else if s[lo] == c then lo else FindChar(s, c, lo + 1, hi)
  }

  /** `s.rfind(c, lo, hi)`: the greatest index holding c, or -1. */
  function RFindChar(s: string, c: char, lo: nat, hi: nat): (r: int)
    requires lo <= hi <= |s|
    ensures r == -1 || lo <= r < hi
    ensures r == -1 ==> forall k :: lo <= k < hi ==> s[k] != c
    ensures r != -1 ==> s[r] == c && forall k :: r < k < hi ==> s[k] != c
    decreases hi - lo
  {
    if lo == hi then -1 else if s[hi - 1] == c then hi - 1 else RFindChar(s, c, lo, hi - 1)
  }

  /** `sub` occurs in `s` at position `p`. */
  predicate OccursAt(s: string, sub: string, p: int) {
    0 <= p && p + |sub| <= |s| && s[p..p + |sub|] == sub
  }

  /** `s.find(sub, lo)`: the least position from lo on where sub occurs, or -1. */
  function Find(s: string, sub: string, lo: nat): (r: int)
    ensures r == -1 || (lo <= r && OccursAt(s, sub, r))
    decreases |s| - lo
  {
    if lo + |sub| > |s| then -1
    else if s[lo..lo + |sub|] == sub then lo
    else Find(s, sub, lo + 1)
  }

  lemma {:induction false} FindIsFirst(s: string, sub: string, lo: nat)
    ensures var r := Find(s, sub, lo);
            forall p :: lo <= p && (r == -1 || p < r) ==> !OccursAt(s, sub, p)
    decreases |s| - lo
  {
    if lo + |sub| <= |s| && s[lo..lo + |sub|] != sub { FindIsFirst(s, sub, lo + 1); }
  }

  /** `s[lo:hi]` for a non-negative lo, cut short at the end; a negative hi counts from the end. */
  function Slice<T>(s: seq<T>, lo: nat, hi: int): seq<T> {
    var end := if hi < 0 then |s| + hi else if hi > |s| then |s| else hi;
    if lo < end then s[lo..end] else []
  }

  /** The length of the longest prefix made of characters of one class. */
  function Span(s: string, p: char -> bool): (n: nat)
    ensures n <= |s|
    ensures forall k :: 0 <= k < n ==> p(s[k])
    ensures n < |s| ==> !p(s[n])
  {
    if s != "" && p(s[0]) then 1 + Span(s[1..], p) else 0
  }

  lemma {:induction false} SliceOfSlice<T>(s: seq<T>, lo: nat, hi: nat, a: nat, b: nat)
    requires lo <= hi <= |s| && a <= b <= hi - lo
    ensures s[lo..hi][a..b] == s[lo + a..lo + b]
  {
    forall k | 0 <= k < b - a
      ensures s[lo..hi][a..b][k] == s[lo + a..lo + b][k]
    {
    }
  }

  predicate StartsWith(s: string, prefix: string) {
    |prefix| <= |s| && s[..|prefix|] == prefix
  }

  /** `sep.join(parts)` for a one-character separator. */
  function Join(parts: seq<string>, sep: char): string {
    if |parts| == 0 then ""
    else if |parts| == 1 then parts[0]
    else Join(parts[..|parts| - 1], sep) + [sep] + parts[|parts| - 1]
  }

  /** `s.split(sep)` for a one-character separator. */
  function Split(s: string, sep: char): (parts: seq<string>)
    ensures |parts| >= 1
    decreases |s|
  {
    var i := RFindChar(s, sep, 0, |s|);
    if i < 0 then [s] else Split(s[..i], sep) + [s[i + 1..]]
  }

  lemma {:induction false} RFindBetween(front: string, sep: char, back: string)
    requires sep !in back
    ensures RFindChar(front + [sep] + back, sep, 0, |front| + 1 + |back|) == |front|
  {
    var s := front + [sep] + back;
    assert s[|front|] == sep;
    assert forall k :: |front| < k < |s| ==> s[k] == back[k - |front| - 1];
  }

  /** Splitting undoes joining, as long as no part holds the separator. */
  lemma {:induction false} SplitJoin(parts: seq<string>, sep: char)
    requires |parts| >= 1
    requires forall p :: p in parts ==> sep !in p
    ensures Split(Join(parts, sep), sep) == parts
  {
    var n := |parts| - 1;
    var init, last := parts[..n], parts[n];
    assert sep !in last;
    if n == 0 {
      assert RFindChar(last, sep, 0, |last|) == -1;
    } else {
      var front := Join(init, sep);
      SplitJoin(init, sep);
      RFindBetween(front, sep, last);
      var s := front + [sep] + last;
      assert s[..|front|] == front && s[|front| + 1..] == last;
    }
  }

  /** Lexicographic order by code point, the order Python gives strings and bytes. */
  predicate Less(a: string, b: string) {
    if |b| == 0 then false
    else if |a| == 0 then true
    else a[0] < b[0] || (a[0] == b[0] && Less(a[1..], b[1..]))
  }

  lemma {:induction false} LessTotal(a: string, b: string)
    ensures Less(a, b) || a == b || Less(b, a)
    ensures !(Less(a, b) && a == b) && !(Less(a, b) && Less(b, a))
  {
    if |a| > 0 && |b| > 0 && a[0] == b[0] {
      LessTotal(a[1..], b[1..]);
      assert a == [a[0]] + a[1..] && b == [b[0]] + b[1..];
    }
  }

  lemma {:induction false} LessTransitive(a: string, b: string, c: string)
    requires Less(a, b) && Less(b, c)
    ensures Less(a, c)
  {
    if |a| > 0 && |b| > 0 && |c| > 0 && a[0] == b[0] && b[0] == c[0] {
      LessTransitive(a[1..], b[1..], c[1..]);
    }
  }
}
