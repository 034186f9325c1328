/** String helpers the license client relies on from Python: the code-point
    ordering used by `sorted`, `str.join`, and substring membership. */
module Text {

  /** Python's `a <= b` on strings: lexicographic by code point. */
  predicate StrLe(a: string, b: string)
  {
    a == [] || (b != [] && (a[0] < b[0] || (a[0] == b[0] && StrLe(a[1..], b[1..]))))
  }

  lemma {:induction false} StrLeTotal(a: string, b: string)
    ensures StrLe(a, b) || StrLe(b, a)
  {
    if a != [] && b != [] && a[0] == b[0] {
      StrLeTotal(a[1..], b[1..]);
    }
  }

  lemma {:induction false} StrLeAntisymmetric(a: string, b: string)
    requires StrLe(a, b) && StrLe(b, a)
    ensures a == b
  {
    if a != [] && b != [] {
      StrLeAntisymmetric(a[1..], b[1..]);
      assert a == [a[0]] + a[1..] && b == [b[0]] + b[1..];
    }
  }

  lemma {:induction false} StrLeTransitive(a: string, b: string, c: string)
    requires StrLe(a, b) && StrLe(b, c)
    ensures StrLe(a, c)
  {
    if a != [] && b != [] && c != [] && a[0] == b[0] && b[0] == c[0] {
      StrLeTransitive(a[1..], b[1..], c[1..]);
    }
  }

  /** Every element is at most every later one. */
  predicate Sorted(s: seq<string>)
  {
    forall i, j :: 0 <= i < j < |s| ==> StrLe(s[i], s[j])
  }

  /** Inserts `x` into the sorted `s` before the first element not below it. */
  function Insert(x: string, s: seq<string>): (r: seq<string>)
    requires Sorted(s)
    ensures Sorted(r)
    ensures multiset(r) == multiset(s) + multiset{x}
    ensures |r| == |s| + 1
  {
    if s == [] then [x]
    else if StrLe(x, s[0]) then
      LowerPrefixSorted(x, s);
      assert s == [s[0]] + s[1..];
      [x] + s
    else
      StrLeTotal(x, s[0]);
      var tail := Insert(x, s[1..]);
      HeadBeforeInserted(x, s, tail);
      assert s == [s[0]] + s[1..];
      [s[0]] + tail
  }

  /** A string at most the head of a sorted list can go in front of it. */
  lemma LowerPrefixSorted(x: string, s: seq<string>)
    requires Sorted(s) && s != [] && StrLe(x, s[0])
    ensures Sorted([x] + s)
  {
    forall j | 0 <= j < |s| ensures StrLe(x, s[j]) {
      if j != 0 { StrLeTransitive(x, s[0], s[j]); }
    }
    var r := [x] + s;
    forall i, j | 0 <= i < j < |r| ensures StrLe(r[i], r[j]) {
      if i != 0 { assert r[i] == s[i - 1] && r[j] == s[j - 1]; }
    }
  }

  /** The head of a sorted list stays in front of the rest with `x` inserted. */
  lemma HeadBeforeInserted(x: string, s: seq<string>, tail: seq<string>)
    requires Sorted(s) && s != [] && StrLe(s[0], x)
    requires Sorted(tail) && multiset(tail) == multiset(s[1..]) + multiset{x}
    ensures Sorted([s[0]] + tail)
  {
    forall k | 0 <= k < |tail| ensures StrLe(s[0], tail[k]) {
      assert tail[k] in multiset(tail);
      assert tail[k] == x || tail[k] in s[1..];
    }
    var r := [s[0]] + tail;
    forall i, j | 0 <= i < j < |r| ensures StrLe(r[i], r[j]) {
      if i != 0 { assert r[i] == tail[i - 1] && r[j] == tail[j - 1]; }
    }
  }

  /** Python's `sorted` on a list of strings. */
  function SortStrings(s: seq<string>): (r: seq<string>)
    ensures Sorted(r)
    ensures multiset(r) == multiset(s)
    ensures |r| == |s|
  {
    if s == [] then []
    else
      assert s == s[..|s| - 1] + [s[|s| - 1]];
      Insert(s[|s| - 1], SortStrings(s[..|s| - 1]))
  }

  /** `m` is a least element of `keys`. */
  predicate LeastOf(m: string, keys: set<string>)
  {
    m in keys && forall k :: k in keys ==> StrLe(m, k)
  }

  lemma {:induction false} LeastExists(keys: set<string>)
    requires keys != {}
    ensures exists m :: LeastOf(m, keys)
  {
    var x :| x in keys;
    StrLeTotal(x, x);
    if keys == {x} {
      assert LeastOf(x, keys);
    } else {
      var rest := keys - {x};
      LeastExists(rest);
      var m :| LeastOf(m, rest);
      StrLeTotal(x, m);
      if StrLe(x, m) {
        forall k | k in keys ensures StrLe(x, k) {
          if k != x { StrLeTransitive(x, m, k); }
        }
        assert LeastOf(x, keys);
      } else {
        forall k | k in keys ensures StrLe(m, k) {
          if k != x { assert k in rest; }
        }
        assert LeastOf(m, keys);
      }
    }
  }

  /** Two least elements of the same set are equal. */
  lemma LeastUnique(a: string, b: string, keys: set<string>)
    requires LeastOf(a, keys) && LeastOf(b, keys)
    ensures a == b
  {
    StrLeAntisymmetric(a, b);
  }

  /** The keys of a Python dict in `sorted` order; a dict iterates as its keys. */
  function SortedKeys(keys: set<string>): (r: seq<string>)
    ensures Sorted(r)
    ensures |r| == |keys|
    ensures forall k :: k in r <==> k in keys
    decreases keys
  {
    if keys == {} then []
    else
      LeastExists(keys);
      assert forall a, b :: LeastOf(a, keys) && LeastOf(b, keys) ==> a == b by {
        forall a, b | LeastOf(a, keys) && LeastOf(b, keys) { LeastUnique(a, b, keys); }
      }
      var m :| LeastOf(m, keys);
      var rest := SortedKeys(keys - {m});
      assert forall k :: 0 <= k < |rest| ==> StrLe(m, rest[k]) by {
        forall k | 0 <= k < |rest| ensures StrLe(m, rest[k]) { assert rest[k] in rest; }
      }
      [m] + rest
  }

  /** Python's `sep.join(parts)`. */
  function Join(parts: seq<string>, sep: string): (r: string)
    ensures parts == [] ==> r == ""
    ensures |parts| > 0 ==> |r| == TotalLength(parts) + (|parts| - 1) * |sep|
    ensures |parts| > 0 ==> parts[0] <= r
  {
    if parts == [] then ""
    else if |parts| == 1 then parts[0]
    else parts[0] + sep + Join(parts[1..], sep)
  }

  /** Joining splits at any point between two nonempty runs of parts. */
  lemma {:induction false} JoinAppend(a: seq<string>, b: seq<string>, sep: string)
    requires a != [] && b != []
    ensures Join(a + b, sep) == Join(a, sep) + sep + Join(b, sep)
  {
    if |a| == 1 {
      assert (a + b)[1..] == b;
    } else {
      assert (a + b)[1..] == a[1..] + b;
      JoinAppend(a[1..], b, sep);
    }
  }

  /** A string occurs in any string built around it. */
  lemma {:induction false} SubstringInContext(needle: string, before: string, after: string)
    ensures IsSubstring(needle, before + needle + after)
    decreases |before|
  {
    if before == [] {
      assert before + needle + after == needle + after;
    } else {
      assert (before + needle + after)[1..] == before[1..] + needle + after;
      SubstringInContext(needle, before[1..], after);
    }
  }

  /** Every part occurs in the joined string. */
  lemma {:induction false} JoinContainsParts(parts: seq<string>, sep: string, i: nat)
    requires i < |parts|
    ensures IsSubstring(parts[i], Join(parts, sep))
  {
    if |parts| == 1 {
      SubstringInContext(parts[0], "", "");
      assert "" + parts[0] + "" == parts[0];
    } else if i == 0 {
      SubstringInContext(parts[0], "", sep + Join(parts[1..], sep));
      assert "" + parts[0] + (sep + Join(parts[1..], sep)) == Join(parts, sep);
    } else {
      JoinContainsParts(parts[1..], sep, i - 1);
      SubstringGrows(parts[i], Join(parts[1..], sep), parts[0] + sep);
      assert (parts[0] + sep) + Join(parts[1..], sep) == Join(parts, sep);
    }
  }

  /** Putting text in front keeps every substring. */
  lemma {:induction false} SubstringGrows(needle: string, haystack: string, front: string)
    requires IsSubstring(needle, haystack)
    ensures IsSubstring(needle, front + haystack)
    decreases |front|
  {
    if front != [] {
      assert (front + haystack)[1..] == front[1..] + haystack;
      SubstringGrows(needle, haystack, front[1..]);
    } else {
      assert front + haystack == haystack;
    }
  }

  /** Putting text behind keeps every substring. */
  lemma {:induction false} SubstringExtends(needle: string, haystack: string, back: string)
    requires IsSubstring(needle, haystack)
    ensures IsSubstring(needle, haystack + back)
    decreases |haystack|
  {
    if !(needle <= haystack) {
      assert (haystack + back)[1..] == haystack[1..] + back;
      SubstringExtends(needle, haystack[1..], back);
    }
  }

  /** A substring of the middle piece is a substring of the whole. */
  lemma InFrame(needle: string, front: string, middle: string, back: string)
    requires IsSubstring(needle, middle)
    ensures IsSubstring(needle, front + middle + back)
  {
    SubstringGrows(needle, middle, front);
    SubstringExtends(needle, front + middle, back);
  }

  function TotalLength(parts: seq<string>): nat
  {
    if parts == [] then 0 else |parts[0]| + TotalLength(parts[1..])
  }

  /** Python's `needle in haystack` on two strings. */
  predicate IsSubstring(needle: string, haystack: string)
    decreases |haystack|
  {
    needle <= haystack || (haystack != [] && IsSubstring(needle, haystack[1..]))
  }

  /** Python's `list(s)`: the one-character strings of `s`, in order. */
  function Chars(s: string): (r: seq<string>)
    ensures |r| == |s|
    ensures forall i :: 0 <= i < |s| ==> r[i] == [s[i]]
  {
    seq(|s|, i requires 0 <= i < |s| => [s[i]])
  }
}
