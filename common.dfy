/**
 * Values and string helpers shared by the whole model: an Option type for
 * the `null`/`undefined` of the JavaScript source, JavaScript truthiness of
 * optional strings, and `String.prototype.trim`.
 */
module Common {

  datatype Option<T> = None | Some(value: T)

  /** JavaScript truthiness of a value that is either absent or a string:
      `undefined`, `null` and `''` are falsy. */
  predicate Truthy(s: Option<string>) {
    s.Some? && s.value != ""
  }

  /** The characters `String.prototype.trim` and the regular expression
      class `\s` treat as white space (WhiteSpace and LineTerminator). */
  predicate IsSpace(c: char) {
    c == ' ' || c == '\t' || c == '\n' || c == '\r' || c == '\U{000B}' || c == '\U{000C}'
    || c == '\U{00A0}' || c == '\U{1680}' || ('\U{2000}' <= c <= '\U{200A}')
    || c == '\U{2028}' || c == '\U{2029}' || c == '\U{202F}' || c == '\U{205F}'
    || c == '\U{3000}' || c == '\U{FEFF}'
  }

  predicate AllSpace(s: string) {
    forall k :: 0 <= k < |s| ==> IsSpace(s[k])
  }

  /** Drops the leading white space. */
  function TrimStart(s: string): (r: string)
    ensures |r| <= |s| && r == s[|s| - |r|..]
    ensures r == [] || !IsSpace(r[0])
    ensures AllSpace(s[..|s| - |r|])
  {
    if s != [] && IsSpace(s[0]) then TrimStart(s[1..]) else s
  }

  /** Drops the trailing white space. */
  function TrimEnd(s: string): (r: string)
    ensures |r| <= |s| && r == s[..|r|]
    ensures r == [] || !IsSpace(r[|r| - 1])
    ensures AllSpace(s[|r|..])
  {
    if s != [] && IsSpace(s[|s| - 1]) then TrimEnd(s[..|s| - 1]) else s
  }

  /** `String.prototype.trim`. */
  function Trim(s: string): (r: string)
    ensures |r| <= |s|
    ensures r == [] <==> AllSpace(s)
    ensures r != [] ==> !IsSpace(r[0]) && !IsSpace(r[|r| - 1])
  {
    var t := TrimStart(s);
    var r := TrimEnd(t);
    assert r == [] ==> AllSpace(s) by {
      if r == [] {
        assert s == s[..|s| - |t|] + t;
        assert AllSpace(t[|r|..]);
      }
    }
    r
  }

  /** Trimming twice is trimming once. */
  lemma TrimIdempotent(s: string)
    ensures Trim(Trim(s)) == Trim(s)
  {
    TrimKeeps(Trim(s));
  }

  /** A string with no white space at either end is its own `Trim`. */
  lemma TrimKeeps(r: string)
    requires r == [] || (!IsSpace(r[0]) && !IsSpace(r[|r| - 1]))
    ensures Trim(r) == r
  {
    TrimStartKeeps(r);
    TrimEndKeeps(r);
  }

  /** A string that does not start with white space is its own `TrimStart`. */
  lemma TrimStartKeeps(r: string)
    requires r == [] || !IsSpace(r[0])
    ensures TrimStart(r) == r
  {
  }

  /** A string that does not end with white space is its own `TrimEnd`. */
  lemma TrimEndKeeps(r: string)
    requires r == [] || !IsSpace(r[|r| - 1])
    ensures TrimEnd(r) == r
  {
  }

  /** Lower-cases the ASCII capital letters and leaves every other
      character alone. */
  function LowerChar(c: char): (r: char)
    ensures 'A' <= c <= 'Z' ==> 'a' <= r <= 'z'
    ensures !('A' <= c <= 'Z') ==> r == c
  {
    if 'A' <= c <= 'Z' then (c as int + 32) as char else c
  }

  /** Upper-cases the ASCII small letters and leaves every other
      character alone. */
  function UpperChar(c: char): (r: char)
    ensures 'a' <= c <= 'z' ==> 'A' <= r <= 'Z'
    ensures !('a' <= c <= 'z') ==> r == c
  {
    if 'a' <= c <= 'z' then (c as int - 32) as char else c
  }

  /** `String.prototype.toLowerCase` on the ASCII letters. */
  function Lower(s: string): (r: string)
    ensures |r| == |s|
    ensures forall k :: 0 <= k < |s| ==> r[k] == LowerChar(s[k])
  {
    if s == [] then [] else [LowerChar(s[0])] + Lower(s[1..])
  }

  lemma LowerIdempotent(s: string)
    ensures Lower(Lower(s)) == Lower(s)
  {
    assert forall k :: 0 <= k < |s| ==> LowerChar(LowerChar(s[k])) == LowerChar(s[k]);
  }

  /** `Array.prototype.filter`: the elements that pass, in their order. */
  function Filter<T(!new)>(s: seq<T>, f: T -> bool): (r: seq<T>)
    ensures |r| <= |s|
    ensures forall x :: x in r <==> x in s && f(x)
  {
    if s == [] then []
    else
      var pre := s[..|s| - 1];
      assert s == pre + [s[|s| - 1]];
      Filter(pre, f) + if f(s[|s| - 1]) then [s[|s| - 1]] else []
  }

  /** Filtering a concatenation filters each part, so the survivors keep
      their relative order. */
  lemma {:induction false} FilterConcat<T(!new)>(a: seq<T>, b: seq<T>, f: T -> bool)
    ensures Filter(a + b, f) == Filter(a, f) + Filter(b, f)
  {
    if b == [] {
      assert a + b == a;
    } else {
      var pre := b[..|b| - 1];
      var y := b[|b| - 1];
      assert b == pre + [y];
      assert (a + b)[..|a + b| - 1] == a + pre;
      FilterConcat(a, pre, f);
    }
  }

  /** Filtering keeps every copy of an element that passes and no copy of
      one that fails. */
  lemma {:induction false} FilterCount<T(!new)>(s: seq<T>, f: T -> bool)
    ensures forall x :: multiset(Filter(s, f))[x] == if f(x) then multiset(s)[x] else 0
  {
    if s != [] {
      var pre := s[..|s| - 1];
      assert s == pre + [s[|s| - 1]];
      FilterCount(pre, f);
    }
  }

  /** Filtering drops nothing when every element passes. */
  lemma {:induction false} FilterAllPass<T(!new)>(s: seq<T>, f: T -> bool)
    requires forall x :: x in s ==> f(x)
    ensures Filter(s, f) == s
  {
    if s != [] {
      var pre := s[..|s| - 1];
      assert s == pre + [s[|s| - 1]];
      FilterAllPass(pre, f);
    }
  }

  /** The index of the first element that passes (`findIndex`, or the
      document a `findOne` / `updateOne` / `deleteOne` query hits, with the
      store's natural order taken as insertion order). */
  function IndexWhere<T(!new)>(s: seq<T>, f: T -> bool): (r: Option<nat>)
    ensures r.Some? ==> r.value < |s| && f(s[r.value])
    ensures r.Some? ==> forall j :: 0 <= j < r.value ==> !f(s[j])
    ensures r.None? <==> forall x :: x in s ==> !f(x)
  {
    if s == [] then None
    else if f(s[0]) then Some(0)
    else
      match IndexWhere(s[1..], f)
      case None =>
        assert forall x :: x in s ==> x == s[0] || x in s[1..];
        None
      case Some(i) => Some(i + 1)
  }

  /** The first element that passes (`find`, `findOne`). */
  function Find<T(!new)>(s: seq<T>, f: T -> bool): (r: Option<T>)
    ensures r.Some? ==> r.value in s && f(r.value)
    ensures r.None? <==> forall x :: x in s ==> !f(x)
  {
    match IndexWhere(s, f)
    case None => None
    case Some(i) => Some(s[i])
  }
}
