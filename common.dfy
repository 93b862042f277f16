/** Identifiers, the error statuses of the HTTP layer, and the string and
    id-list helpers shared by the backend and the frontend models. */
module Common {

  /** Document ids. A MongoDB ObjectId renders as 24 lower-case hex digits, so
      comparing two rendered ids as strings (what `Array.prototype.sort` does)
      orders them exactly as comparing the numbers they denote. */
  type UserId = nat
  type ConvId = nat
  type MsgId = nat

  datatype Option<T> = None | Some(value: T) {
    function GetOr(default: T): T {
      match this
      case Some(v) => v
      case None => default
    }
  }

  /** The error statuses the controllers answer with (400, 403, 404, 409, 500). */
  datatype Status = BadRequest | Forbidden | NotFound | Conflict | ServerError

  datatype Result<T> = Ok(value: T) | Err(status: Status)

  // ---------------------------------------------------------------- strings

  /** The characters `String.prototype.trim` strips: white space and line
      terminators of ECMAScript (section 12.2 and 12.3 of ECMA-262). */
  predicate IsSpace(c: char) {
    || c == ' ' || c == '\t' || c == '\n' || c == '\r'
    || c == '\U{000B}' || c == '\U{000C}' || c == '\U{00A0}' || c == '\U{FEFF}'
    || c == '\U{1680}' || ('\U{2000}' <= c <= '\U{200A}')
    || c == '\U{2028}' || c == '\U{2029}' || c == '\U{202F}' || c == '\U{205F}'
    || c == '\U{3000}'
  }

  predicate AllSpace(s: string) {
    forall i :: 0 <= i < |s| ==> IsSpace(s[i])
  }

  /** Drops leading white space: the result is a suffix of `s` that does not
      start with white space, and everything dropped is white space. */
  function TrimStart(s: string): (r: string)
    ensures |r| <= |s| && r == s[|s| - |r|..]
    ensures r == [] || !IsSpace(r[0])
    ensures AllSpace(s[..|s| - |r|])
  {
    if s != [] && IsSpace(s[0]) then TrimStart(s[1..]) else s
  }

  /** Drops trailing white space: the result is a prefix of `s` that does not
      end with white space, and everything dropped is white space. */
  function TrimEnd(s: string): (r: string)
    ensures |r| <= |s| && r == s[..|r|]
    ensures r == [] || !IsSpace(r[|r| - 1])
    ensures AllSpace(s[|r|..])
  {
    if s != [] && IsSpace(s[|s| - 1]) then TrimEnd(s[..|s| - 1]) else s
  }

  /** `String.prototype.trim`: the infix of `s` left after white space is
      stripped from both ends. */
  function Trim(s: string): (r: string)
    ensures exists i :: OccursAt(s, r, i)
    ensures r == [] || (!IsSpace(r[0]) && !IsSpace(r[|r| - 1]))
  {
    var t := TrimStart(s);
    var r := TrimEnd(t);
    InfixOfSuffix(s, |s| - |t|, |r|);
    assert OccursAt(s, r, |s| - |t|);
    r
  }

  /** Only white space goes: what `Trim` drops before and after the result
      is all white space. */
  lemma TrimDropsOnlySpace(s: string)
    ensures exists i :: OccursAt(s, Trim(s), i) && AllSpace(s[..i]) && AllSpace(s[i + |Trim(s)|..])
  {
    var t := TrimStart(s);
    var r := TrimEnd(t);
    var i := |s| - |t|;
    InfixOfSuffix(s, i, |r|);
    assert OccursAt(s, r, i) && AllSpace(s[..i]) && AllSpace(s[i + |r|..]);
  }

  /** A prefix of a suffix is an infix, and what follows it is the rest of
      the suffix. */
  lemma InfixOfSuffix(s: string, i: nat, n: nat)
    requires i + n <= |s|
    ensures s[i..][..n] == s[i..i + n] && s[i..][n..] == s[i + n..]
  {
  }

  /** Trimming is idempotent: a stored, already trimmed value is not changed
      by being trimmed again. */
  lemma TrimIdempotent(s: string)
    ensures Trim(Trim(s)) == Trim(s)
  {
    var r := Trim(s);
    if r != [] {
      assert TrimStart(r) == r;
      assert TrimEnd(r) == r;
    }
  }

  /** A string trims to nothing exactly when it is all white space. */
  lemma {:induction false} TrimEmptyIffAllSpace(s: string)
    ensures Trim(s) == [] <==> AllSpace(s)
  {
    var t := TrimStart(s);
    if t == [] {
      assert s[..|s|] == s;
    } else {
      assert !IsSpace(t[0]) && t[0] == s[|s| - |t|];
      if Trim(s) == [] {
        TrimEndEmpty(t);
      }
    }
  }

  lemma {:induction false} TrimEndEmpty(t: string)
    requires TrimEnd(t) == []
    ensures AllSpace(t)
  {
    assert t[0..] == t;
  }

  /** The ASCII letters lower-cased; every other character unchanged. */
  function LowerChar(c: char): (d: char)
    ensures 'A' <= c <= 'Z' ==> 'a' <= d <= 'z'
    ensures !('A' <= c <= 'Z') ==> d == c
  {
    if 'A' <= c <= 'Z' then (c as int - 'A' as int + 'a' as int) as char else c
  }

  /** `String.prototype.toLowerCase`, for the ASCII letters. */
  function Lower(s: string): (r: string)
    ensures |r| == |s|
    ensures forall i :: 0 <= i < |s| ==> r[i] == LowerChar(s[i])
  {
    if s == [] then [] else [LowerChar(s[0])] + Lower(s[1..])
  }

  /** `needle` occurs in `haystack` starting at index `i`. */
  predicate OccursAt(haystack: string, needle: string, i: int) {
    0 <= i <= |haystack| - |needle| && haystack[i..i + |needle|] == needle
  }

  /** `haystack.includes(needle)`, searched from the left. */
  predicate Includes(haystack: string, needle: string)
    decreases |haystack|
  {
    && |needle| <= |haystack|
    && (haystack[..|needle|] == needle || (haystack != [] && Includes(haystack[1..], needle)))
  }

  /** The search succeeds exactly when `needle` occurs somewhere in `haystack`. */
  lemma {:induction false} IncludesIffOccurs(haystack: string, needle: string)
    ensures Includes(haystack, needle) <==> exists i :: OccursAt(haystack, needle, i)
  {
    IncludesFound(haystack, needle);
    forall i | OccursAt(haystack, needle, i) ensures Includes(haystack, needle) {
      OccursIncluded(haystack, needle, i);
    }
  }

  lemma {:induction false} IncludesFound(haystack: string, needle: string)
    ensures Includes(haystack, needle) ==> exists i :: OccursAt(haystack, needle, i)
    decreases |haystack|
  {
    if Includes(haystack, needle) {
      if haystack[..|needle|] == needle {
        assert OccursAt(haystack, needle, 0);
      } else {
        IncludesFound(haystack[1..], needle);
        var i :| OccursAt(haystack[1..], needle, i);
        assert haystack[1..][i..i + |needle|] == haystack[i + 1..i + 1 + |needle|];
        assert OccursAt(haystack, needle, i + 1);
      }
    }
  }

  lemma {:induction false} OccursIncluded(haystack: string, needle: string, i: int)
    requires OccursAt(haystack, needle, i)
    ensures Includes(haystack, needle)
    decreases i
  {
    if i > 0 {
      assert haystack[1..][i - 1..i - 1 + |needle|] == haystack[i..i + |needle|];
      OccursIncluded(haystack[1..], needle, i - 1);
    }
  }

  /** Every string includes the empty string. */
  lemma IncludesEmpty(s: string)
    ensures Includes(s, "")
  {
  }

  // ------------------------------------------------------------ id lists

  predicate Increasing(s: seq<nat>) {
    forall i, j :: 0 <= i < j < |s| ==> s[i] < s[j]
  }

  predicate NoDup<T(==)>(s: seq<T>) {
    forall i, j :: 0 <= i < j < |s| ==> s[i] != s[j]
  }

  /** Inserts `x` into an increasing list, dropping it if already present. */
  function InsertSorted(x: nat, s: seq<nat>): (r: seq<nat>)
    requires Increasing(s)
    ensures Increasing(r)
    ensures forall y :: y in r <==> y == x || y in s
  {
    if s == [] then [x]
    else if x < s[0] then [x] + s
    else if x == s[0] then s
    else
      var t := InsertSorted(x, s[1..]);
      assert forall k :: 0 <= k < |t| ==> s[0] < t[k] by {
        forall k | 0 <= k < |t| ensures s[0] < t[k] {
          assert t[k] in t;
        }
      }
      [s[0]] + t
  }

  /** `[...new Set(s)].sort()`: the distinct ids of `s` in increasing order. */
  function SortUnique(s: seq<nat>): (r: seq<nat>)
    ensures Increasing(r)
    ensures forall y :: y in r <==> y in s
  {
    if s == [] then []
    else
      var r := InsertSorted(s[|s| - 1], SortUnique(s[..|s| - 1]));
      assert forall y :: y in s <==> y == s[|s| - 1] || y in s[..|s| - 1] by {
        assert s == s[..|s| - 1] + [s[|s| - 1]];
      }
      r
  }

  /** An increasing list is determined by its elements: sorting does not
      depend on the order in which the ids were supplied. */
  lemma {:induction false} IncreasingUnique(a: seq<nat>, b: seq<nat>)
    requires Increasing(a) && Increasing(b)
    requires forall y :: y in a <==> y in b
    ensures a == b
  {
    assert a != [] ==> a[0] in b;
    assert b != [] ==> b[0] in a;
    if a != [] {
      assert a[0] == b[0] by {
        assert a[0] in b && b[0] in a;
      }
      forall y ensures y in a[1..] <==> y in b[1..] {
        if y in a[1..] { assert y in b && y != b[0]; }
        if y in b[1..] { assert y in a && y != a[0]; }
      }
      IncreasingUnique(a[1..], b[1..]);
      assert a == [a[0]] + a[1..] && b == [b[0]] + b[1..];
    }
  }

  /** Sorting a permutation of the same ids gives the same list. */
  lemma SortUniqueOrderIndependent(s: seq<nat>, t: seq<nat>)
    requires forall y :: y in s <==> y in t
    ensures SortUnique(s) == SortUnique(t)
  {
    IncreasingUnique(SortUnique(s), SortUnique(t));
  }

  /** `[a, b].sort()` on two ids (without removing a duplicate). */
  function SortPair(a: nat, b: nat): (r: seq<nat>)
    ensures |r| == 2 && r[0] <= r[1]
    ensures multiset(r) == multiset{a, b}
  {
    if a <= b then [a, b] else [b, a]
  }

  /** The stored order of a pair does not depend on the order of the arguments. */
  lemma SortPairSymmetric(a: nat, b: nat)
    ensures SortPair(a, b) == SortPair(b, a)
  {
  }

  /** The elements of `order` that belong to `keep`, in their order: a query
      over the documents of a collection in natural order. */
  function Keep(order: seq<nat>, keep: set<nat>): (r: seq<nat>)
    ensures |r| <= |order|
    ensures forall x :: x in r <==> x in order && x in keep
  {
    if order == [] then []
    else if order[0] in keep then [order[0]] + Keep(order[1..], keep)
    else Keep(order[1..], keep)
  }

  /** Filtering adds no duplicate. */
  lemma {:induction false} KeepNoDup(order: seq<nat>, keep: set<nat>)
    requires NoDup(order)
    ensures NoDup(Keep(order, keep))
  {
    if order != [] {
      var tail := order[1..];
      assert NoDup(tail) by {
        forall i, j | 0 <= i < j < |tail| ensures tail[i] != tail[j] {
          assert tail[i] == order[i + 1] && tail[j] == order[j + 1];
        }
      }
      KeepNoDup(tail, keep);
      if order[0] in keep {
        var rest := Keep(tail, keep);
        var r := [order[0]] + rest;
        assert forall k :: 0 < k < |r| ==> r[k] == rest[k - 1];
        forall k | 0 <= k < |rest| ensures rest[k] != order[0] {
          assert rest[k] in tail;
          var j :| 0 <= j < |tail| && tail[j] == rest[k];
          assert order[j + 1] == rest[k];
        }
      }
    }
  }

  /** Filtering keeps an increasing order increasing. */
  lemma {:induction false} KeepIncreasing(order: seq<nat>, keep: set<nat>)
    requires Increasing(order)
    ensures Increasing(Keep(order, keep))
  {
    if order != [] {
      var tail := order[1..];
      KeepIncreasing(tail, keep);
      if order[0] in keep {
        var rest := Keep(tail, keep);
        var r := [order[0]] + rest;
        assert forall k :: 0 < k < |r| ==> r[k] == rest[k - 1];
        forall k | 0 <= k < |rest| ensures order[0] < rest[k] {
          assert rest[k] in tail;
          var j :| 0 <= j < |tail| && tail[j] == rest[k];
          assert order[j + 1] == rest[k];
        }
      }
    }
  }

  /** A filter that every element passes is the identity. */
  lemma KeepAll(order: seq<nat>, keep: set<nat>)
    requires forall x :: x in order ==> x in keep
    ensures Keep(order, keep) == order
  {
    if order != [] {
      KeepAll(order[1..], keep);
    }
  }
}
