/** Shared vocabulary of the server: outcomes of calls that may throw, HTTP
    replies, and the handful of JavaScript string and array built-ins the
    server relies on (String.prototype.trim, substring, indexOf, replace,
    Array.prototype.join, filter and Mongo's cursor limit). */
module Common {

  datatype Option<T> = None | Some(value: T)

  /** A destructuring default `{ x = dflt } = body`: it applies only when the
      field is absent. */
  function OrDefault<T>(o: Option<T>, dflt: T): T {
    if o.Some? then o.value else dflt
  }

  /** The outcome of an async call that either resolves with a value or
      rejects with `new Error(message)`. */
  datatype Result<T> = Ok(value: T) | Err(message: string)

  /** What an Express handler sends: a status with a payload, or a status with
      a `{ message }` body (for 500s, the text 'Server error'). */
  datatype Response<T> = Reply(status: int, body: T) | Refuse(status: int, message: string)
  {
    function Status(): int {
      match this
      case Reply(s, _) => s
      case Refuse(s, _) => s
    }
  }

  // ---------------------------------------------------------------------------
  // String.prototype.trim

  /** The WhiteSpace and LineTerminator code points of ECMAScript. */
  predicate IsWhitespace(c: char) {
    || c == ' ' || '\t' <= c <= '\r' || c == '\U{00A0}' || c == '\U{1680}'
    || '\U{2000}' <= c <= '\U{200A}' || c == '\U{2028}' || c == '\U{2029}'
    || c == '\U{202F}' || c == '\U{205F}' || c == '\U{3000}' || c == '\U{FEFF}'
  }

  /** The first position at or after `i` that holds no white space, or
      `|s|` if there is none. */
  function SkipForward(s: string, i: nat): (j: nat)
    requires i <= |s|
    ensures i <= j <= |s|
    ensures forall k :: i <= k < j ==> IsWhitespace(s[k])
    ensures j == |s| || !IsWhitespace(s[j])
    decreases |s| - i
  {
    if i < |s| && IsWhitespace(s[i]) then SkipForward(s, i + 1) else i
  }

  /** The end of the content in `s[lo..j]`: the smallest `e` such that
      `s[e..j]` is all white space. */
  function SkipBackward(s: string, lo: nat, j: nat): (e: nat)
    requires lo <= j <= |s|
    ensures lo <= e <= j
    ensures forall k :: e <= k < j ==> IsWhitespace(s[k])
    ensures e == lo || !IsWhitespace(s[e - 1])
  {
    if lo < j && IsWhitespace(s[j - 1]) then SkipBackward(s, lo, j - 1) else j
  }

  /** `r` is the part of `s` that starts at `i` and has only white space
      on either side of it. */
  ghost predicate SliceBetweenMargins(s: string, r: string, i: int) {
    && 0 <= i <= |s| - |r| && r == s[i..i + |r|]
    && (forall k :: 0 <= k < i ==> IsWhitespace(s[k]))
    && (forall k :: i + |r| <= k < |s| ==> IsWhitespace(s[k]))
  }

  /** `s.trim()`: the slice of `s` between its white-space margins. */
  function Trim(s: string): (r: string)
    ensures exists i :: SliceBetweenMargins(s, r, i)
    ensures r == [] || (!IsWhitespace(r[0]) && !IsWhitespace(r[|r| - 1]))
  {
    var a := SkipForward(s, 0);
    var e := SkipBackward(s, a, |s|);
    assert SliceBetweenMargins(s, s[a..e], a);
    s[a..e]
  }

  /** A string with no white-space margin is its own trim. */
  lemma {:induction false} TrimNoMargin(s: string)
    requires s == [] || (!IsWhitespace(s[0]) && !IsWhitespace(s[|s| - 1]))
    ensures Trim(s) == s
  {
  }

  /** Trimming twice is trimming once. */
  lemma TrimIdempotent(s: string)
    ensures Trim(Trim(s)) == Trim(s)
  {
    TrimNoMargin(Trim(s));
  }

  // ---------------------------------------------------------------------------
  // Prefixes, Mongo's limit, filter, join

  /** `s.substring(0, n)` and `a.slice(0, n)`: the first n elements, or all of
      them when there are fewer. */
  function Take<T>(s: seq<T>, n: nat): (r: seq<T>)
    ensures |r| == if |s| <= n then |s| else n
    ensures r == s[..|r|]
  {
    if |s| <= n then s else s[..n]
  }

  /** Mongo's `cursor.limit(n)`: `limit(0)` means no limit at all. */
  function TakeLimit<T>(s: seq<T>, n: nat): (r: seq<T>)
    ensures n == 0 ==> r == s
    ensures n > 0 ==> r == Take(s, n)
  {
    if n == 0 then s else Take(s, n)
  }

  /** `a.filter(p)`: the elements satisfying p, in their original order. */
  function Filter<T>(s: seq<T>, p: T -> bool): (r: seq<T>)
    ensures |r| <= |s|
    ensures forall i :: 0 <= i < |r| ==> r[i] in s && p(r[i])
    ensures forall i :: 0 <= i < |s| && p(s[i]) ==> s[i] in r
  {
    if s == [] then [] else (if p(s[0]) then [s[0]] else []) + Filter(s[1..], p)
  }

  lemma FilterAppend<T>(a: seq<T>, b: seq<T>, p: T -> bool)
    ensures Filter(a + b, p) == Filter(a, p) + Filter(b, p)
  {
    if a != [] {
      assert (a + b)[0] == a[0];
      assert (a + b)[1..] == a[1..] + b;
      FilterAppend(a[1..], b, p);
    } else {
      assert a + b == b;
    }
  }

  /** `xs.join(sep)`. */
  function Join(xs: seq<string>, sep: string): string
  {
    if |xs| == 0 then "" else if |xs| == 1 then xs[0] else xs[0] + sep + Join(xs[1..], sep)
  }

  /** Appending a piece to a non-empty list appends the separator and the
      piece to the joined string: the result is the pieces in order, one
      separator between each two neighbours. */
  lemma {:induction false} JoinSnoc(xs: seq<string>, x: string, sep: string)
    requires xs != []
    ensures Join(xs + [x], sep) == Join(xs, sep) + sep + x
  {
    if |xs| > 1 {
      assert (xs + [x])[1..] == xs[1..] + [x];
      JoinSnoc(xs[1..], x, sep);
    }
  }

  // ---------------------------------------------------------------------------
  // String.prototype.indexOf and String.prototype.replace with a string pattern

  predicate OccursAt(s: string, pat: string, k: nat) {
    k + |pat| <= |s| && s[k..k + |pat|] == pat
  }

  /** `s.indexOf(pat, from)`: the first position at or after `from` where
      `pat` occurs. */
  function IndexOfFrom(s: string, pat: string, from: nat): (r: Option<nat>)
    decreases |s| - from
    ensures r.Some? ==> from <= r.value && OccursAt(s, pat, r.value)
    ensures r.Some? ==> forall k :: from <= k < r.value ==> !OccursAt(s, pat, k)
    ensures r.None? ==> forall k :: from <= k ==> !OccursAt(s, pat, k)
  {
    if from + |pat| > |s| then None
    else if s[from..from + |pat|] == pat then Some(from)
    else IndexOfFrom(s, pat, from + 1)
  }

  function IndexOf(s: string, pat: string): Option<nat> {
    IndexOfFrom(s, pat, 0)
  }

  /** `s.replace(pat, rep)` with a string pattern: only the first occurrence
      is replaced; without one, `s` is returned as it is. */
  function ReplaceFirst(s: string, pat: string, rep: string): string {
    match IndexOf(s, pat)
    case None => s
    case Some(i) => s[..i] + rep + s[i + |pat|..]
  }

  /** Characterisation of ReplaceFirst: with no occurrence nothing changes;
      otherwise s is the result with the pattern put back at the first
      occurrence. */
  lemma ReplaceFirstSpec(s: string, pat: string, rep: string)
    ensures (forall k :: !OccursAt(s, pat, k)) ==> ReplaceFirst(s, pat, rep) == s
    ensures IndexOf(s, pat).Some? ==>
      var i := IndexOf(s, pat).value;
      && ReplaceFirst(s, pat, rep) == s[..i] + rep + s[i + |pat|..]
      && s == s[..i] + pat + s[i + |pat|..]
      && (forall k: nat :: k < i ==> !OccursAt(s, pat, k))
  {
    if IndexOf(s, pat).Some? {
      var i := IndexOf(s, pat).value;
      assert s == s[..i] + s[i..i + |pat|] + s[i + |pat|..];
    }
  }
}
