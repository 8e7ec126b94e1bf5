/**
 The few Python built-ins the validators rely on, over strings as
 sequences of characters: `any` and `all` over a list of booleans, the
 list comprehension `[f(c) for c in s]`, `str.split` with an explicit
 separator and `str.upper` restricted to ASCII letters. `Find` and `Join`
 are helpers: `Split` is defined with `Find`, and `Join` states what
 `Split` undoes.
 */
module PyStr {

  /** `[f(c) for c in s]`: the classifier applied to every character. */
  function Classify(s: string, f: char -> bool): (bs: seq<bool>)
    ensures |bs| == |s|
    ensures forall i :: 0 <= i < |s| ==> bs[i] == f(s[i])
  {
    seq(|s|, i requires 0 <= i < |s| => f(s[i]))
  }

  /** Python's `any`: true iff some element is true (false on the empty list). */
  function Any(bs: seq<bool>): (r: bool)
    ensures r <==> exists i :: 0 <= i < |bs| && bs[i]
  {
    if bs == [] then false
    else
      var rest := Any(bs[1..]);
      assert forall i :: 0 <= i < |bs| - 1 ==> bs[1..][i] == bs[i + 1];
      bs[0] || rest
  }

  /** Python's `all`: true iff every element is true (true on the empty list). */
  function All(bs: seq<bool>): (r: bool)
    ensures r <==> forall i :: 0 <= i < |bs| ==> bs[i]
  {
    if bs == [] then true
    else
      var rest := All(bs[1..]);
      assert forall i :: 0 <= i < |bs| - 1 ==> bs[1..][i] == bs[i + 1];
      bs[0] && rest
  }

  /** `sep` occurs in `s` starting at index `i`. */
  predicate OccursAt(s: string, sep: string, i: int)
  {
    0 <= i && i + |sep| <= |s| && s[i..i + |sep|] == sep
  }

  predicate Contains(s: string, sep: string)
  {
    exists i :: 0 <= i <= |s| && OccursAt(s, sep, i)
  }

  /**
   `s.find(sep)`: the first index where `sep` occurs, or -1. The
   validators never call it; `Split` is defined with it.
   */
  function Find(s: string, sep: string): (r: int)
    requires |sep| > 0
    ensures -1 <= r
    ensures r < 0 <==> !Contains(s, sep)
    ensures r >= 0 ==> OccursAt(s, sep, r) && forall j :: 0 <= j < r ==> !OccursAt(s, sep, j)
    decreases |s|
  {
    if |s| < |sep| then -1
    else if s[..|sep|] == sep then
      assert OccursAt(s, sep, 0);
      0
    else
      var k := Find(s[1..], sep);
      assert forall j :: 0 <= j ==> (OccursAt(s[1..], sep, j) <==> OccursAt(s, sep, j + 1)) by {
        forall j | 0 <= j ensures OccursAt(s[1..], sep, j) <==> OccursAt(s, sep, j + 1) {
          if j + |sep| <= |s| - 1 {
            assert s[1..][j..j + |sep|] == s[j + 1..j + 1 + |sep|];
          }
        }
      }
      assert !OccursAt(s, sep, 0);
      if k < 0 then
        assert forall i :: !OccursAt(s, sep, i) by {
          forall i ensures !OccursAt(s, sep, i) {
            if i > 0 { assert !OccursAt(s[1..], sep, i - 1); }
          }
        }
        -1
      else
        assert forall j :: 0 <= j < k + 1 ==> !OccursAt(s, sep, j) by {
          forall j | 0 < j < k + 1 ensures !OccursAt(s, sep, j) {
            assert !OccursAt(s[1..], sep, j - 1);
          }
        }
        k + 1
  }

  /**
   `sep.join(parts)`: the pieces with `sep` between neighbours. The
   validators never call it; it states what `Split` undoes. The first
   piece always starts the result, followed by `sep` when more follow.
   */
  function Join(parts: seq<string>, sep: string): (r: string)
    ensures parts != [] ==> parts[0] <= r
    ensures |parts| > 1 ==> parts[0] + sep <= r
  {
    if parts == [] then ""
    else if |parts| == 1 then parts[0]
    else parts[0] + sep + Join(parts[1..], sep)
  }

  /**
   Python's `s.split(sep)` for a non-empty separator: the pieces between
   the occurrences of `sep`, found left to right without overlap. There
   is always at least one piece, no piece contains `sep`, and joining the
   pieces with `sep` gives back `s`.
   */
  function Split(s: string, sep: string): (r: seq<string>)
    requires |sep| > 0
    ensures |r| >= 1
    ensures Join(r, sep) == s
    ensures forall k :: 0 <= k < |r| ==> !Contains(r[k], sep)
    decreases |s|
  {
    var i := Find(s, sep);
    if i < 0 then [s]
    else
      var head, tail := s[..i], s[i + |sep|..];
      var rest := Split(tail, sep);
      assert s == head + sep + tail by {
        assert s == s[..i] + s[i..i + |sep|] + s[i + |sep|..];
      }
      assert !Contains(head, sep) by {
        forall j | OccursAt(head, sep, j) ensures false {
          assert s[j..j + |sep|] == head[j..j + |sep|];
          assert OccursAt(s, sep, j);
        }
      }
      [head] + rest
  }

  /**
   When the first character of `sep` does not occur in `head`, the first
   piece of `head + sep + tail` is `head`, and the remaining pieces are
   those of `tail`.
   */
  lemma {:induction false} SplitAtFirst(head: string, sep: string, tail: string)
    requires |sep| > 0 && sep[0] !in head
    ensures Split(head + sep + tail, sep) == [head] + Split(tail, sep)
  {
    var s := head + sep + tail;
    assert OccursAt(s, sep, |head|) by {
      assert s[|head|..|head| + |sep|] == sep;
    }
    forall j | 0 <= j < |head| ensures !OccursAt(s, sep, j) {
      assert s[j] == head[j];
      if j + |sep| <= |s| {
        assert s[j..j + |sep|][0] == s[j];
      }
    }
    assert Find(s, sep) == |head|;
    assert s[..|head|] == head;
    assert s[|head| + |sep|..] == tail;
  }

  /** `s.split(sep)` is `[s]` when `sep` does not occur in `s`. */
  lemma SplitWithoutSeparator(s: string, sep: string)
    requires |sep| > 0 && !Contains(s, sep)
    ensures Split(s, sep) == [s]
  {
  }

  /** A string without the first character of `sep` does not contain `sep`. */
  lemma {:induction false} LacksFirstChar(s: string, sep: string)
    requires |sep| > 0 && sep[0] !in s
    ensures !Contains(s, sep)
  {
    forall j | 0 <= j <= |s| ensures !OccursAt(s, sep, j) {
      if j + |sep| <= |s| {
        assert s[j..j + |sep|][0] == s[j];
      }
    }
  }

  /** An ASCII lower-case letter, the only characters `Upper` changes. */
  predicate IsAsciiLower(c: char) { 'a' <= c <= 'z' }

  /** Python's `str.upper` on ASCII letters; every other character is left alone. */
  function UpperChar(c: char): (u: char)
    ensures !IsAsciiLower(u)
    ensures !IsAsciiLower(c) ==> u == c
  {
    if IsAsciiLower(c) then (c as int - 32) as char else c
  }

  /**
   `s.upper()`: character by character. The result holds no lower-case
   letter, and a string without one is left unchanged.
   */
  function Upper(s: string): (r: string)
    ensures |r| == |s|
    ensures forall i :: 0 <= i < |s| ==> r[i] == UpperChar(s[i])
    ensures forall i :: 0 <= i < |r| ==> !IsAsciiLower(r[i])
    ensures (forall i :: 0 <= i < |s| ==> !IsAsciiLower(s[i])) ==> r == s
  {
    seq(|s|, i requires 0 <= i < |s| => UpperChar(s[i]))
  }
}
