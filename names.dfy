/** Parameter names: Python's ordering of strings, sorting a collection of
    names into a duplicate-free ascending list, the identifier rule that
    `inspect.Parameter` enforces, and the ", " joining used for display. */
module Names {

  /** Python's `<` on `str`: lexicographic by code point, a proper prefix first. */
  predicate Less(a: string, b: string)
    decreases |a|
  {
    if |a| == 0 then |b| > 0
    else |b| > 0 && (a[0] < b[0] || (a[0] == b[0] && Less(a[1..], b[1..])))
  }

  lemma {:induction false} LessIrreflexive(a: string)
    ensures !Less(a, a)
    decreases |a|
  {
    if |a| > 0 {
      LessIrreflexive(a[1..]);
    }
  }

  lemma {:induction false} LessAsymmetric(a: string, b: string)
    ensures !(Less(a, b) && Less(b, a))
    decreases |a|
  {
    if |a| > 0 && |b| > 0 && a[0] == b[0] {
      LessAsymmetric(a[1..], b[1..]);
    }
  }

  lemma {:induction false} LessTransitive(a: string, b: string, c: string)
    requires Less(a, b) && Less(b, c)
    ensures Less(a, c)
    decreases |a|
  {
    if |a| > 0 && a[0] == b[0] && b[0] == c[0] {
      LessTransitive(a[1..], b[1..], c[1..]);
    }
  }

  lemma {:induction false} LessTotal(a: string, b: string)
    requires a != b
    ensures Less(a, b) || Less(b, a)
    decreases |a|
  {
    if |a| > 0 && |b| > 0 && a[0] == b[0] {
      assert a == [a[0]] + a[1..] && b == [b[0]] + b[1..];
      LessTotal(a[1..], b[1..]);
    }
  }

  predicate StrictlySorted(s: seq<string>) {
    forall i, j :: 0 <= i < j < |s| ==> Less(s[i], s[j])
  }

  predicate Distinct(s: seq<string>) {
    forall i, j :: 0 <= i < j < |s| ==> s[i] != s[j]
  }

  function Elements(s: seq<string>): set<string> {
    set x | x in s
  }

  lemma ElementsCons(h: string, t: seq<string>)
    ensures Elements([h] + t) == {h} + Elements(t)
  {
    assert forall y :: y in [h] + t <==> y == h || y in t;
  }

  lemma ElementsEmpty(s: seq<string>)
    ensures |s| == 0 <==> Elements(s) == {}
  {
    if |s| > 0 {
      assert s[0] in Elements(s);
    }
  }

  lemma SortedIsDistinct(s: seq<string>)
    requires StrictlySorted(s)
    ensures Distinct(s)
  {
    forall i, j | 0 <= i < j < |s|
      ensures s[i] != s[j]
    {
      LessIrreflexive(s[i]);
    }
  }

  lemma SortedHeadIsLeast(s: seq<string>, y: string)
    requires StrictlySorted(s) && |s| > 0 && y in s
    ensures y == s[0] || Less(s[0], y)
  {
    var k :| 0 <= k < |s| && s[k] == y;
    if k > 0 {
      assert Less(s[0], s[k]);
    }
  }

  lemma PrependBelowAll(h: string, t: seq<string>)
    requires StrictlySorted(t)
    requires forall y :: y in t ==> Less(h, y)
    ensures StrictlySorted([h] + t)
  {
    var s := [h] + t;
    forall i, j | 0 <= i < j < |s|
      ensures Less(s[i], s[j])
    {
      assert s[j] == t[j - 1];
      if i > 0 {
        assert s[i] == t[i - 1];
      }
    }
  }

  /** Inserts `x` into an ascending duplicate-free list, keeping it so. */
  function InsertSorted(x: string, s: seq<string>): (r: seq<string>)
    requires StrictlySorted(s)
    ensures StrictlySorted(r)
    ensures Elements(r) == Elements(s) + {x}
    decreases |s|
  {
    if |s| == 0 then [x]
    else if x == s[0] then s
    else if Less(x, s[0]) then
      assert forall y :: y in s ==> Less(x, y) by {
        forall y | y in s
          ensures Less(x, y)
        {
          SortedHeadIsLeast(s, y);
          if y != s[0] {
            LessTransitive(x, s[0], y);
          }
        }
      }
      PrependBelowAll(x, s);
      [x] + s
    else
      var t := InsertSorted(x, s[1..]);
      assert forall y :: y in t ==> Less(s[0], y) by {
        forall y | y in t
          ensures Less(s[0], y)
        {
          assert y in Elements(t);
          if y == x {
            LessTotal(x, s[0]);
          } else {
            var k :| 0 <= k < |s[1..]| && s[1..][k] == y;
            assert s[k + 1] == y;
          }
        }
      }
      PrependBelowAll(s[0], t);
      ElementsCons(s[0], t);
      ElementsCons(s[0], s[1..]);
      assert s == [s[0]] + s[1..];
      [s[0]] + t
  }

  /** `sorted(set(names))`: the distinct names in ascending order. */
  function SortedDistinct(names: seq<string>): (r: seq<string>)
    ensures StrictlySorted(r)
    ensures Elements(r) == Elements(names)
  {
    if |names| == 0 then []
    else
      assert names == [names[0]] + names[1..];
      InsertSorted(names[0], SortedDistinct(names[1..]))
  }

  /** An ascending duplicate-free list is determined by its elements. */
  lemma {:induction false} SortedUnique(a: seq<string>, b: seq<string>)
    requires StrictlySorted(a) && StrictlySorted(b)
    requires Elements(a) == Elements(b)
    ensures a == b
    decreases |a|
  {
    ElementsEmpty(a);
    ElementsEmpty(b);
    if |a| > 0 {
      assert a[0] in Elements(b) && b[0] in Elements(a);
      SortedHeadIsLeast(a, b[0]);
      SortedHeadIsLeast(b, a[0]);
      LessAsymmetric(a[0], b[0]);
      SortedIsDistinct(a);
      SortedIsDistinct(b);
      forall y | y in Elements(a[1..])
        ensures y in Elements(b[1..])
      {
        var k :| 0 <= k < |a[1..]| && a[1..][k] == y;
        assert a[k + 1] == y && y != a[0];
        assert y in Elements(b);
        var m :| 0 <= m < |b| && b[m] == y;
        assert b[1..][m - 1] == y;
      }
      forall y | y in Elements(b[1..])
        ensures y in Elements(a[1..])
      {
        var k :| 0 <= k < |b[1..]| && b[1..][k] == y;
        assert b[k + 1] == y && y != b[0];
        assert y in Elements(a);
        var m :| 0 <= m < |a| && a[m] == y;
        assert a[1..][m - 1] == y;
      }
      SortedUnique(a[1..], b[1..]);
      assert a == [a[0]] + a[1..] && b == [b[0]] + b[1..];
    }
  }

  /** Python's reserved words, which `inspect.Parameter` refuses as names. */
  const Keywords: set<string> := {
    "False", "None", "True", "and", "as", "assert", "async", "await", "break",
    "class", "continue", "def", "del", "elif", "else", "except", "finally",
    "for", "from", "global", "if", "import", "in", "is", "lambda", "nonlocal",
    "not", "or", "pass", "raise", "return", "try", "while", "with", "yield"
  }

  /** Every character from U+0080 on is accepted as a letter. */
  predicate IdentifierStart(c: char) {
    ('a' <= c <= 'z') || ('A' <= c <= 'Z') || c == '_' || c >= '\U{80}'
  }

  predicate IdentifierPart(c: char) {
    IdentifierStart(c) || ('0' <= c <= '9')
  }

  /** `name.isidentifier() and not iskeyword(name)`. */
  predicate ValidName(s: string) {
    && |s| > 0
    && IdentifierStart(s[0])
    && (forall i :: 1 <= i < |s| ==> IdentifierPart(s[i]))
    && s !in Keywords
  }

  lemma ValidNameHasNoComma(s: string)
    requires ValidName(s)
    ensures |s| > 0 && ',' !in s
  {
    forall i | 0 <= i < |s|
      ensures s[i] != ','
    {
      if i > 0 {
        assert IdentifierPart(s[i]);
      }
    }
  }

  /** `", ".join(names)`. */
  function Join(names: seq<string>): string
    decreases |names|
  {
    if |names| == 0 then ""
    else if |names| == 1 then names[0]
    else names[0] + ", " + Join(names[1..])
  }

  /** Position of the first comma of `s`, or `|s|` when there is none. */
  function CommaAt(s: string): (i: nat)
    ensures i <= |s|
    ensures i < |s| ==> s[i] == ','
    ensures forall j :: 0 <= j < i ==> s[j] != ','
  {
    if |s| == 0 then 0
    else if s[0] == ',' then 0
    else 1 + CommaAt(s[1..])
  }

  /** Reads a ", "-joined list back into its items. */
  function Split(s: string): seq<string>
    decreases |s|
  {
    if |s| == 0 then []
    else
      var i := CommaAt(s);
      if i == |s| then [s]
      else [s[..i]] + Split(if i + 2 <= |s| then s[i + 2..] else [])
  }

  /** Joining loses nothing when no item is empty or holds a comma. */
  lemma {:induction false} SplitJoin(names: seq<string>)
    requires forall n :: n in names ==> |n| > 0 && ',' !in n
    ensures Split(Join(names)) == names
    decreases |names|
  {
    if |names| == 1 {
      var a := names[0];
      assert a in names;
      forall j | 0 <= j < |a|
        ensures a[j] != ','
      {
        assert a[j] in a;
      }
    } else if |names| > 1 {
      var a := names[0];
      assert a in names;
      var rest := Join(names[1..]);
      var s := a + ", " + rest;
      assert s[|a|] == ',';
      forall j | 0 <= j < |a|
        ensures s[j] != ','
      {
        assert s[j] == a[j] && a[j] in a;
      }
      var i := CommaAt(s);
      assert i == |a|;
      assert s[..i] == a && s[i + 2..] == rest;
      forall n | n in names[1..]
        ensures |n| > 0 && ',' !in n
      {
        assert n in names;
      }
      SplitJoin(names[1..]);
      assert names == [a] + names[1..];
    }
  }
}
