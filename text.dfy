/** String operations of the JavaScript runtime that the server relies on:
    String.prototype.split with a one-character separator, its inverse,
    splitting at the first occurrence of a character, and "occurs as a
    substring". */
module Text {

  import opened Wrappers

  /** Splits `s` at the first occurrence of `c`, or None when `c` does not
      occur. */
  function SplitFirst(s: string, c: char): (r: Option<(string, string)>)
    ensures r.None? <==> c !in s
    ensures r.Some? ==> s == r.value.0 + [c] + r.value.1 && c !in r.value.0
  {
    if s == [] then None
    else if s[0] == c then Some(([], s[1..]))
    else
      match SplitFirst(s[1..], c)
      case None => None
      case Some((a, b)) => Some(([s[0]] + a, b))
  }

  /** The first occurrence of `c` in `a + [c] + b` is the one after `a`
      when `a` holds no `c`. */
  lemma {:induction false} SplitFirstAt(a: string, b: string, c: char)
    requires c !in a
    ensures SplitFirst(a + [c] + b, c) == Some((a, b))
  {
    if a != [] {
      SplitFirstAt(a[1..], b, c);
      assert (a + [c] + b)[1..] == a[1..] + [c] + b;
      assert [a[0]] + a[1..] == a;
    }
  }

  /** Joins `parts` with one `sep` between consecutive parts. */
  function Join(parts: seq<string>, sep: char): string
    requires |parts| >= 1
    decreases |parts|
  {
    if |parts| == 1 then parts[0] else parts[0] + [sep] + Join(parts[1..], sep)
  }

  /** `s.split(sep)` for a one-character separator: the maximal
      separator-free pieces between the occurrences of `sep`, in order.
      There is always one piece more than there are separators, so the
      empty string splits into the single empty piece. */
  function Split(s: string, sep: char): (parts: seq<string>)
    ensures |parts| >= 1
    ensures forall i :: 0 <= i < |parts| ==> sep !in parts[i]
    ensures Join(parts, sep) == s
    decreases |s|
  {
    match SplitFirst(s, sep)
    case None => [s]
    case Some((a, b)) =>
      var rest := Split(b, sep);
      assert ([a] + rest)[1..] == rest;
      [a] + rest
  }

  /** There is one piece more than there are separators. */
  lemma {:induction false} SplitCount(s: string, sep: char)
    ensures |Split(s, sep)| == multiset(s)[sep] + 1
    decreases |s|
  {
    match SplitFirst(s, sep)
    case None =>
    case Some((a, b)) =>
      SplitCount(b, sep);
      assert multiset(s) == multiset(a) + multiset([sep]) + multiset(b);
  }

  /** Splitting a join of separator-free parts gives the parts back. */
  lemma {:induction false} SplitJoin(parts: seq<string>, sep: char)
    requires |parts| >= 1
    requires forall i :: 0 <= i < |parts| ==> sep !in parts[i]
    ensures Split(Join(parts, sep), sep) == parts
    decreases |parts|
  {
    if |parts| > 1 {
      var rest := Join(parts[1..], sep);
      SplitFirstAt(parts[0], rest, sep);
      SplitJoin(parts[1..], sep);
      assert parts == [parts[0]] + parts[1..];
    }
  }

  /** `x` appears in `s` starting at index `i`. */
  ghost predicate OccursAt(x: string, s: string, i: int)
  {
    0 <= i <= |s| - |x| && s[i..i + |x|] == x
  }

  /** `x` appears in `s` as a contiguous substring. */
  ghost predicate Occurs(x: string, s: string)
  {
    exists i :: OccursAt(x, s, i)
  }

  /** Every part of a join appears in the joined string. */
  lemma {:induction false} PartOccurs(parts: seq<string>, sep: char, k: nat)
    requires k < |parts|
    ensures Occurs(parts[k], Join(parts, sep))
    decreases |parts|
  {
    var s := Join(parts, sep);
    if k == 0 {
      assert OccursAt(parts[0], s, 0);
    } else {
      PartOccurs(parts[1..], sep, k - 1);
      var t := Join(parts[1..], sep);
      var i :| OccursAt(parts[k], t, i);
      var off := |parts[0]| + 1;
      assert s == parts[0] + [sep] + t;
      assert s[off + i..off + i + |parts[k]|] == t[i..i + |parts[k]|];
      assert OccursAt(parts[k], s, off + i);
    }
  }

  /** Being a substring is transitive. */
  lemma OccursTransitive(x: string, y: string, z: string)
    requires Occurs(x, y) && Occurs(y, z)
    ensures Occurs(x, z)
  {
    var i :| OccursAt(x, y, i);
    var j :| OccursAt(y, z, j);
    assert forall m :: 0 <= m < |x| ==> z[j + i + m] == y[i + m] == x[m];
    assert z[j + i..j + i + |x|] == x;
    assert OccursAt(x, z, j + i);
  }

  /** A substring holds no character its host does not hold. */
  lemma OccursChars(x: string, s: string, c: char)
    requires Occurs(x, s) && c !in s
    ensures c !in x
  {
    var i :| OccursAt(x, s, i);
    assert forall k :: 0 <= k < |x| ==> x[k] == s[i + k];
  }
}
