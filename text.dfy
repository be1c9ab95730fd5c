/** Character- and string-level operations that the post generator uses from
    Python's `str` type: `replace(c, "")`, `lower()` (ASCII letters only),
    `sep.join(items)`, `s.split(sep)` and substring search.  Strings are
    `seq<char>`. */
module Text {

  /** An ASCII upper-case letter. */
  predicate IsUpper(c: char) { 'A' <= c <= 'Z' }

  /** A character of the regular-expression class `[a-zA-Z0-9]`. */
  predicate IsAlnum(c: char) { 'a' <= c <= 'z' || 'A' <= c <= 'Z' || '0' <= c <= '9' }

  /** A character of the slug alphabet `[a-z0-9]`. */
  predicate IsLowerAlnum(c: char) { 'a' <= c <= 'z' || '0' <= c <= '9' }

  /** ASCII lower-casing of one character; every other character is kept. */
  function Lower(c: char): (r: char)
    ensures !IsUpper(r)
    ensures IsAlnum(c) <==> IsAlnum(r)
    ensures IsAlnum(c) ==> IsLowerAlnum(r)
    ensures !IsUpper(c) ==> r == c
  {
    if IsUpper(c) then (c as int + 32) as char else c
  }

  /** `s.lower()` restricted to ASCII letters. */
  function LowerAll(s: string): (r: string)
    ensures |r| == |s|
    ensures forall i :: 0 <= i < |s| ==> r[i] == Lower(s[i])
  {
    seq(|s|, i requires 0 <= i < |s| => Lower(s[i]))
  }

  lemma LowerAllIdempotent(s: string)
    ensures LowerAll(LowerAll(s)) == LowerAll(s)
  {
    var once := LowerAll(s);
    assert forall i :: 0 <= i < |once| ==> !IsUpper(once[i]);
  }

  /** Lower-casing works character by character, so it distributes over concatenation. */
  lemma LowerAllAppend(a: string, b: string)
    ensures LowerAll(a + b) == LowerAll(a) + LowerAll(b)
  {
  }

  /** `s.replace(c, "")`: every occurrence of `c` removed, the rest in order. */
  function Without(s: string, c: char): (r: string)
    ensures c !in r
    ensures |r| <= |s|
  {
    if s == [] then []
    else if s[0] == c then Without(s[1..], c)
    else [s[0]] + Without(s[1..], c)
  }

  /** Every other character keeps its number of occurrences. */
  lemma {:induction false} WithoutCounts(s: string, c: char)
    ensures forall x :: x != c ==> multiset(Without(s, c))[x] == multiset(s)[x]
  {
    if s != [] {
      WithoutCounts(s[1..], c);
      assert s == [s[0]] + s[1..];
    }
  }

  /** Removing a character that does not occur changes nothing, hence
      removing it twice is the same as removing it once. */
  lemma {:induction false} WithoutAbsent(s: string, c: char)
    requires c !in s
    ensures Without(s, c) == s
  {
    if s != [] {
      WithoutAbsent(s[1..], c);
    }
  }

  lemma WithoutIdempotent(s: string, c: char)
    ensures Without(Without(s, c), c) == Without(s, c)
  {
    WithoutAbsent(Without(s, c), c);
  }

  /** Removing `c` from `[c] + t` gives `t` when `t` holds no `c`. */
  lemma WithoutLeading(t: string, c: char)
    requires c !in t
    ensures Without([c] + t, c) == t
  {
    assert ([c] + t)[1..] == t;
    WithoutAbsent(t, c);
  }

  /** `re.sub(r'[^a-zA-Z0-9]', '', s)`: keep the ASCII letters and digits, in order. */
  function KeepAlnum(s: string): (r: string)
    ensures forall i :: 0 <= i < |r| ==> IsAlnum(r[i])
    ensures |r| <= |s|
  {
    if s == [] then []
    else if IsAlnum(s[0]) then [s[0]] + KeepAlnum(s[1..])
    else KeepAlnum(s[1..])
  }

  /** Every letter and digit keeps its number of occurrences. */
  lemma {:induction false} KeepAlnumCounts(s: string)
    ensures forall x :: IsAlnum(x) ==> multiset(KeepAlnum(s))[x] == multiset(s)[x]
  {
    if s != [] {
      KeepAlnumCounts(s[1..]);
      assert s == [s[0]] + s[1..];
    }
  }

  /** One step of the filter, for evaluating it on concrete text. */
  lemma KeepAlnumCons(c: char, t: string)
    ensures KeepAlnum([c] + t) == if IsAlnum(c) then [c] + KeepAlnum(t) else KeepAlnum(t)
  {
    assert ([c] + t)[1..] == t;
  }

  /** Nothing survives the filter exactly when the input holds no ASCII
      letter or digit. */
  lemma {:induction false} KeepAlnumEmptyIff(s: string)
    ensures KeepAlnum(s) == [] <==> forall i :: 0 <= i < |s| ==> !IsAlnum(s[i])
  {
    if s != [] {
      KeepAlnumEmptyIff(s[1..]);
      assert forall i :: 1 <= i < |s| ==> s[i] == s[1..][i - 1];
    }
  }

  /** A string made only of letters and digits passes the filter unchanged. */
  lemma {:induction false} KeepAlnumOfAlnum(s: string)
    requires forall i :: 0 <= i < |s| ==> IsAlnum(s[i])
    ensures KeepAlnum(s) == s
  {
    if s != [] {
      KeepAlnumOfAlnum(s[1..]);
    }
  }

  /** Removing a non-alphanumeric character first does not change what the
      filter keeps. */
  lemma {:induction false} KeepAlnumWithout(s: string, c: char)
    requires !IsAlnum(c)
    ensures KeepAlnum(Without(s, c)) == KeepAlnum(s)
  {
    if s != [] {
      KeepAlnumWithout(s[1..], c);
      if s[0] != c {
        assert ([s[0]] + Without(s[1..], c))[1..] == Without(s[1..], c);
      }
    }
  }

  /** `sep.join(items)`. */
  function Join(items: seq<string>, sep: string): (r: string)
    ensures |items| > 0 ==> items[0] <= r
    ensures forall c :: c !in sep && (forall k :: 0 <= k < |items| ==> c !in items[k]) ==> c !in r
  {
    if items == [] then ""
    else if |items| == 1 then items[0]
    else items[0] + sep + Join(items[1..], sep)
  }

  /** An empty last item is not skipped: the joined text ends with the separator. */
  lemma {:induction false} JoinEndsWithSeparator(items: seq<string>, sep: string)
    requires |items| >= 2 && items[|items| - 1] == ""
    ensures |Join(items, sep)| >= |sep|
    ensures Join(items, sep)[|Join(items, sep)| - |sep|..] == sep
  {
    if |items| == 2 {
      assert Join(items[1..], sep) == "";
      assert Join(items, sep) == items[0] + sep;
    } else {
      JoinEndsWithSeparator(items[1..], sep);
    }
  }

  /** `sub in s`: `sub` occurs in `s` starting at some position. */
  predicate Contains(s: string, sub: string)
    decreases |s|
  {
    |s| >= |sub| && (sub <= s || (s != [] && Contains(s[1..], sub)))
  }

  /** Whatever is placed between two strings occurs in the result. */
  lemma {:induction false} ContainsConcat(p: string, sub: string, q: string)
    ensures Contains(p + sub + q, sub)
    decreases |p|
  {
    if p != [] {
      assert (p + sub + q)[1..] == p[1..] + sub + q;
      ContainsConcat(p[1..], sub, q);
    } else {
      assert p + sub + q == sub + q;
    }
  }

  /** `s.split(sep)` for a non-empty separator: scan from the left, cut at
      each occurrence of `sep` and resume after it. */
  function Split(s: string, sep: string): (r: seq<string>)
    requires |sep| > 0
    ensures |r| >= 1
    ensures !Contains(s, sep) ==> r == [s]
    decreases |s|
  {
    if sep <= s then [""] + Split(s[|sep|..], sep)
    else if s == [] then [""]
    else
      assert s == [s[0]] + s[1..];
      var rest := Split(s[1..], sep);
      [[s[0]] + rest[0]] + rest[1..]
  }

  /** The separators the generator uses: one character, or two different ones.
      Such a separator cannot begin inside an item and end inside the
      separator that follows it. */
  predicate SimpleSeparator(sep: string) {
    |sep| == 1 || (|sep| == 2 && sep[0] != sep[1])
  }

  /** No occurrence of `sep` starts inside `t` when `t` is followed by `sep`. */
  predicate NoSeparatorBefore(t: string, sep: string)
    decreases |t|
  {
    t == [] || (!(sep <= t + sep) && NoSeparatorBefore(t[1..], sep))
  }

  lemma {:induction false} NoSeparatorBeforeOf(t: string, sep: string)
    requires SimpleSeparator(sep) && !Contains(t, sep)
    ensures NoSeparatorBefore(t, sep)
  {
    if t != [] {
      assert !Contains(t[1..], sep);
      NoSeparatorBeforeOf(t[1..], sep);
      if |t| >= |sep| {
        assert (t + sep)[..|sep|] == t[..|sep|];
      } else {
        assert (t + sep)[..2] == [t[0], sep[0]];
      }
    }
  }

  /** Splitting an item followed by the separator yields that item first. */
  lemma {:induction false} SplitAfterItem(t: string, sep: string, rest: string)
    requires |sep| > 0 && NoSeparatorBefore(t, sep)
    ensures Split(t + sep + rest, sep) == [t] + Split(rest, sep)
    decreases |t|
  {
    var s := t + sep + rest;
    if t == [] {
      assert s == sep + rest;
      assert s[|sep|..] == rest;
    } else {
      assert (t + sep) <= s;
      assert s[..|sep|] == (t + sep)[..|sep|];
      assert !(sep <= s);
      assert s[1..] == t[1..] + sep + rest;
      SplitAfterItem(t[1..], sep, rest);
      assert [s[0]] + t[1..] == t;
    }
  }

  /** Splitting the joined text gives the items back, provided no item
      contains the separator. */
  lemma {:induction false} SplitJoin(items: seq<string>, sep: string)
    requires SimpleSeparator(sep) && |items| >= 1
    requires forall k :: 0 <= k < |items| ==> !Contains(items[k], sep)
    ensures Split(Join(items, sep), sep) == items
  {
    if |items| > 1 {
      NoSeparatorBeforeOf(items[0], sep);
      SplitAfterItem(items[0], sep, Join(items[1..], sep));
      SplitJoin(items[1..], sep);
    }
  }

  /** A string without character `c` does not contain a separator made of it. */
  lemma {:induction false} NotContainsChar(s: string, sep: string)
    requires |sep| > 0 && sep[0] !in s
    ensures !Contains(s, sep)
    decreases |s|
  {
    if s != [] {
      NotContainsChar(s[1..], sep);
    }
  }
}
