/** Hashtag derivation and formatting of `weekly_post_generator.py`: the tags
    derived from the sample title and the sample artist, the final tag list
    (core, rotating and trendy selections, derived tags), the three format
    modes and the copy/paste tag string. */
module Hashtags {
  import opened Text

  /** The fixed core tags, always included first. */
  const CoreTags: seq<string> := ["#boombap", "#hiphopinstrumental", "#beatmaker", "#akai", "#wantumeni"]

  /** The rotating tags the user may choose from, at most `MaxRotating` of them. */
  const RotatingOptions: seq<string> :=
    ["#lofi", "#sampling", "#samples", "#beats", "#beattape", "#hiphop", "#hiphopbeats",
     "#instrumental", "#soul", "#soulful", "#oldschool", "#cratedigger", "#vinyl"]

  const MaxRotating: nat := 10

  /** The trendy tags the user may add, without a cap. */
  const TrendyOptions: seq<string> :=
    ["#typebeat", "#undergroundhiphop", "#instrumentals", "#musicproducer", "#drumbreaks",
     "#freestyletypebeat", "#jazzhop", "#90shiphop"]

  /** What the selection widgets can hand over: rotating tags drawn from
      their options and no more than ten of them, trendy tags drawn from theirs. */
  predicate ValidSelection(rotating: seq<string>, trendy: seq<string>) {
    && |rotating| <= MaxRotating
    && (forall k :: 0 <= k < |rotating| ==> rotating[k] in RotatingOptions)
    && (forall k :: 0 <= k < |trendy| ==> trendy[k] in TrendyOptions)
  }

  // ---------------------------------------------------------------------
  // Sample tag

  /** The two-character text that the pattern `r'\\s+'` starts with: a
      backslash followed by the letter `s`. */
  const BackslashS: string := "\\s"

  lemma BackslashSPrefix(x: string)
    ensures BackslashS <= x <==> |x| >= 2 && x[0] == '\\' && x[1] == 's'
  {
    if |x| >= 2 {
      assert x[..2] == [x[0], x[1]];
    }
  }

  /** Drops the leading run of letters `s`. */
  function DropLeadingS(s: string): (r: string)
    ensures |r| <= |s| && r == s[|s| - |r|..]
    ensures r == [] || r[0] != 's'
  {
    if s != [] && s[0] == 's' then DropLeadingS(s[1..]) else s
  }

  /** `re.sub(r'\\s+', '', s)`: the raw pattern is an escaped backslash
      followed by `s+`, so every run made of a backslash and one or more
      letters `s` is removed, scanning left to right; whitespace is kept. */
  function RemoveBackslashRuns(s: string): (r: string)
    ensures |r| <= |s|
    ensures |r| > 0 && r[0] == 's' ==> |s| > 0 && s[0] == 's'
    ensures !Contains(r, BackslashS)
    decreases |s|
  {
    if |s| >= 2 && s[0] == '\\' && s[1] == 's' then
      RemoveBackslashRuns(DropLeadingS(s[1..]))
    else if s == [] then []
    else
      var rest := RemoveBackslashRuns(s[1..]);
      assert s[0] == '\\' ==> rest == [] || rest[0] != 's';
      BackslashSPrefix([s[0]] + rest);
      assert !(BackslashS <= [s[0]] + rest);
      assert ([s[0]] + rest)[1..] == rest;
      [s[0]] + rest
  }

  /** Dropping the leading run of `s` keeps every other character's count. */
  lemma {:induction false} DropLeadingSCounts(s: string)
    ensures forall x :: x != 's' ==> multiset(DropLeadingS(s))[x] == multiset(s)[x]
  {
    if s != [] && s[0] == 's' {
      DropLeadingSCounts(s[1..]);
      assert s == [s[0]] + s[1..];
    }
  }

  /** Only backslashes and letters `s` are removed: every other character,
      whitespace included, keeps its number of occurrences. */
  lemma {:induction false} RemoveBackslashRunsCounts(s: string)
    ensures forall x :: x != '\\' && x != 's' ==> multiset(RemoveBackslashRuns(s))[x] == multiset(s)[x]
    decreases |s|
  {
    if s != [] {
      assert s == [s[0]] + s[1..];
      if |s| >= 2 && s[0] == '\\' && s[1] == 's' {
        DropLeadingSCounts(s[1..]);
        RemoveBackslashRunsCounts(DropLeadingS(s[1..]));
      } else {
        RemoveBackslashRunsCounts(s[1..]);
      }
    }
  }

  /** One step of dropping the leading run, for concrete text. */
  lemma DropLeadingSStep(s: string)
    requires s != []
    ensures DropLeadingS(s) == if s[0] == 's' then DropLeadingS(s[1..]) else s
  {
  }

  /** One step of the scan where no match starts, for concrete text. */
  lemma RemoveBackslashRunsCopy(c: char, t: string)
    requires c != '\\' || t == [] || t[0] != 's'
    ensures RemoveBackslashRuns([c] + t) == [c] + RemoveBackslashRuns(t)
  {
    assert ([c] + t)[1..] == t;
  }

  /** One step of the scan where a match starts, for concrete text. */
  lemma RemoveBackslashRunsSkip(t: string)
    requires t != [] && t[0] == 's'
    ensures RemoveBackslashRuns(['\\'] + t) == RemoveBackslashRuns(DropLeadingS(t))
  {
    assert (['\\'] + t)[1..] == t;
  }

  /** Dropping the leading run of `s` only touches the front: text after the
      run that does not start with `s` is kept whole. */
  lemma {:induction false} DropLeadingSAppend(a: string, b: string)
    requires b == [] || b[0] != 's'
    ensures DropLeadingS(a + b) == DropLeadingS(a) + b
    decreases |a|
  {
    if a == [] {
      assert a + b == b;
      if b != [] {
        DropLeadingSStep(b);
      }
    } else {
      assert (a + b)[0] == a[0] && (a + b)[1..] == a[1..] + b;
      DropLeadingSStep(a + b);
      DropLeadingSStep(a);
      if a[0] == 's' {
        DropLeadingSAppend(a[1..], b);
      }
    }
  }

  /** A match at the front of `['\\'] + t` is also at the front of `['\\'] + t + b`,
      and its run of `s` ends at the same place. */
  lemma RemoveBackslashRunsSkipFront(t: string, b: string)
    requires t != [] && t[0] == 's' && (b == [] || b[0] != 's')
    ensures RemoveBackslashRuns(['\\'] + t + b) == RemoveBackslashRuns(DropLeadingS(t) + b)
  {
    assert ['\\'] + t + b == ['\\'] + (t + b);
    RemoveBackslashRunsSkip(t + b);
    DropLeadingSAppend(t, b);
  }

  /** One step of the scan where no match starts. */
  lemma RemoveBackslashRunsCopyAt(s: string)
    requires s != [] && (s[0] != '\\' || |s| == 1 || s[1] != 's')
    ensures RemoveBackslashRuns(s) == [s[0]] + RemoveBackslashRuns(s[1..])
  {
  }

  /** A character copied from the front of `a` is copied from the front of `a + b` too. */
  lemma RemoveBackslashRunsCopyFront(a: string, b: string)
    requires a != [] && (a[0] != '\\' || |a| == 1 || a[1] != 's')
    requires b == [] || b[0] != 's'
    ensures RemoveBackslashRuns(a + b) == [a[0]] + RemoveBackslashRuns(a[1..] + b)
  {
    var ab := a + b;
    assert ab[0] == a[0] && ab[1..] == a[1..] + b;
    assert ab[0] != '\\' || |ab| == 1 || ab[1] != 's' by {
      if |a| == 1 {
        assert ab[1..] == b;
      } else {
        assert ab[1] == a[1];
      }
    }
    RemoveBackslashRunsCopyAt(ab);
  }

  /** The cut when the text before it starts with a character that is copied. */
  lemma RemoveBackslashRunsAppendCopy(a: string, b: string)
    requires a != [] && (a[0] != '\\' || |a| == 1 || a[1] != 's')
    requires b == [] || b[0] != 's'
    requires RemoveBackslashRuns(a[1..] + b) == RemoveBackslashRuns(a[1..]) + RemoveBackslashRuns(b)
    ensures RemoveBackslashRuns(a + b) == RemoveBackslashRuns(a) + RemoveBackslashRuns(b)
  {
    var rt, rb := RemoveBackslashRuns(a[1..]), RemoveBackslashRuns(b);
    var x, y := RemoveBackslashRuns(a), RemoveBackslashRuns(a + b);
    assert x == [a[0]] + rt by {
      RemoveBackslashRunsCopyAt(a);
    }
    assert y == [a[0]] + (rt + rb) by {
      RemoveBackslashRunsCopyFront(a, b);
    }
    AppendAssoc([a[0]], rt, rb, x, y);
  }

  /** No match spans a cut made in front of a character other than `s`: the
      two sides are substituted on their own and the results keep their order. */
  lemma {:induction false} RemoveBackslashRunsAppend(a: string, b: string)
    requires b == [] || b[0] != 's'
    ensures RemoveBackslashRuns(a + b) == RemoveBackslashRuns(a) + RemoveBackslashRuns(b)
    decreases |a|
  {
    if a == [] {
      assert a + b == b;
    } else {
      var t := a[1..];
      assert a == [a[0]] + t;
      if a[0] == '\\' && t != [] && t[0] == 's' {
        RemoveBackslashRunsAppend(DropLeadingS(t), b);
        RemoveBackslashRunsSkip(t);
        RemoveBackslashRunsSkipFront(t, b);
      } else {
        RemoveBackslashRunsAppend(t, b);
        RemoveBackslashRunsAppendCopy(a, b);
      }
    }
  }

  /** Associativity of concatenation, stated on names so that the proofs
      using it need not look inside the strings. */
  lemma AppendAssoc(p: string, q: string, u: string, x: string, y: string)
    requires x == p + q && y == p + (q + u)
    ensures y == x + u
  {
  }

  /** One match of the pattern: a backslash followed by one or more letters `s`. */
  predicate IsMatch(m: string) {
    |m| >= 2 && m[0] == '\\' && forall i :: 1 <= i < |m| ==> m[i] == 's'
  }

  /** A run made only of letters `s` is dropped whole. */
  lemma {:induction false} DropLeadingSAll(t: string)
    requires forall i :: 0 <= i < |t| ==> t[i] == 's'
    ensures DropLeadingS(t) == []
    decreases |t|
  {
    if t != [] {
      DropLeadingSStep(t);
      DropLeadingSAll(t[1..]);
    }
  }

  /** A backslash followed by any number (one or more) of letters `s` is removed whole. */
  lemma RemoveBackslashRunsMatch(m: string)
    requires IsMatch(m)
    ensures RemoveBackslashRuns(m) == []
  {
    assert m == ['\\'] + m[1..];
    DropLeadingSAll(m[1..]);
    RemoveBackslashRunsSkip(m[1..]);
  }

  /** A match followed by a character other than `s` (or by nothing) is
      removed and nothing else: the text before it and the text after it are
      substituted on their own and kept in order, letters `s` included. */
  lemma RemoveBackslashRunsAroundMatch(a: string, m: string, b: string)
    requires IsMatch(m) && (b == [] || b[0] != 's')
    ensures RemoveBackslashRuns(a + m + b) == RemoveBackslashRuns(a) + RemoveBackslashRuns(b)
  {
    assert RemoveBackslashRuns(m + b) == RemoveBackslashRuns(b) by {
      RemoveBackslashRunsAppend(m, b);
      RemoveBackslashRunsMatch(m);
    }
    assert (m + b)[0] == '\\';
    RemoveBackslashRunsAppend(a, m + b);
    assert a + m + b == a + (m + b);
  }

  /** A run of exactly two letters `s` is dropped whole. */
  lemma DropTwoS(t: string)
    requires |t| >= 2 && t[0] == 's' && t[1] == 's'
    requires |t| == 2 || t[2] != 's'
    ensures DropLeadingS(t) == t[2..]
  {
    var t1, t2 := t[1..], t[2..];
    assert t1[1..] == t2;
    if t2 != [] {
      DropLeadingSStep(t2);
    }
    DropLeadingSStep(t1);
    DropLeadingSStep(t);
  }

  /** A match of a backslash and two letters `s` is removed whole when the
      run of `s` ends there. */
  lemma RemoveDoubleMatch(t: string)
    requires |t| >= 3 && t[0] == '\\' && t[1] == 's' && t[2] == 's'
    requires |t| == 3 || t[3] != 's'
    ensures RemoveBackslashRuns(t) == RemoveBackslashRuns(t[3..])
  {
    var t1 := t[1..];
    DropTwoS(t1);
    assert t1[2..] == t[3..];
    assert t == ['\\'] + t1;
    RemoveBackslashRunsSkip(t1);
  }

  /** A match is removed with its whole run of `s`, and the text around it stays. */
  lemma RemoveBackslashRunsExample(s: string)
    requires |s| == 5 && s[0] == 'a' && s[1] == '\\' && s[2] == 's' && s[3] == 's' && s[4] == 'b'
    ensures RemoveBackslashRuns(s) == "ab"
  {
    assert s[1..][3..] == [s[4]] + [];
    RemoveBackslashRunsCopy(s[4], []);
    RemoveDoubleMatch(s[1..]);
    assert s == [s[0]] + s[1..];
    RemoveBackslashRunsCopy(s[0], s[1..]);
  }

  /** A backslash that is not followed by `s` stays, even right before a match;
      the space after the match stays too. */
  lemma RemoveBackslashRunsKeepsLoneBackslash(s: string)
    requires |s| == 7 && s[0] == 'x' && s[1] == '\\' && s[2] == '\\' && s[3] == 's' && s[4] == 's'
    requires s[5] == ' ' && s[6] == 'y'
    ensures RemoveBackslashRuns(s) == "x\\ y"
  {
    var t1, t2, t5, t6 := s[1..], s[2..], s[5..], s[6..];
    assert RemoveBackslashRuns(t5) == [s[5], s[6]] by {
      assert t6 == [s[6]] + [] && t5 == [s[5]] + t6;
      RemoveBackslashRunsCopy(s[6], []);
      RemoveBackslashRunsCopy(s[5], t6);
    }
    assert RemoveBackslashRuns(t2) == RemoveBackslashRuns(t5) by {
      assert t2[3..] == t5;
      RemoveDoubleMatch(t2);
    }
    assert RemoveBackslashRuns(t1) == [s[1]] + RemoveBackslashRuns(t2) by {
      assert t1 == [s[1]] + t2;
      RemoveBackslashRunsCopy(s[1], t2);
    }
    assert RemoveBackslashRuns(s) == [s[0]] + RemoveBackslashRuns(t1) by {
      assert s == [s[0]] + t1;
      RemoveBackslashRunsCopy(s[0], t1);
    }
  }

  /** Text with no match of the pattern is left unchanged. */
  lemma {:induction false} RemoveBackslashRunsNoMatch(s: string)
    requires !Contains(s, BackslashS)
    ensures RemoveBackslashRuns(s) == s
    decreases |s|
  {
    if s != [] {
      assert !(BackslashS <= s);
      RemoveBackslashRunsNoMatch(s[1..]);
      assert s == [s[0]] + s[1..];
    }
  }

  /** Applying the removal twice is the same as applying it once. */
  lemma RemoveBackslashRunsIdempotent(s: string)
    ensures RemoveBackslashRuns(RemoveBackslashRuns(s)) == RemoveBackslashRuns(s)
  {
    RemoveBackslashRunsNoMatch(RemoveBackslashRuns(s));
  }

  /** Text without any backslash, whitespace included, survives the removal. */
  lemma NoBackslashKept(s: string)
    requires '\\' !in s
    ensures RemoveBackslashRuns(s) == s
  {
    NotContainsChar(s, BackslashS);
    RemoveBackslashRunsNoMatch(s);
  }

  /** The tag derived from the sample title: empty for an empty title,
      otherwise `#` and the lower-cased title with the pattern's matches removed. */
  function SampleTag(title: string): (r: string)
    ensures r == "" <==> title == ""
    ensures r != "" ==> r[0] == '#' && !Contains(r[1..], BackslashS)
  {
    if title != "" then "#" + RemoveBackslashRuns(LowerAll(title)) else ""
  }

  /** Cutting the title in front of a character that does not lower-case to
      `s` cuts the tag at the same place: after the `#`, each side is
      lower-cased and substituted on its own, and the two keep their order. */
  lemma SampleTagAppend(a: string, b: string)
    requires a + b != "" && (b == [] || Lower(b[0]) != 's')
    ensures SampleTag(a + b) == "#" + RemoveBackslashRuns(LowerAll(a)) + RemoveBackslashRuns(LowerAll(b))
  {
    LowerAllAppend(a, b);
    RemoveBackslashRunsAppend(LowerAll(a), LowerAll(b));
  }

  /** A backslash followed by letters `s` or `S`, up to a character that
      does not lower-case to `s`, is removed from the tag and nothing else is:
      the text before and after it stays, letters `s` included. */
  lemma SampleTagAroundMatch(a: string, m: string, b: string)
    requires IsMatch(LowerAll(m)) && (b == [] || Lower(b[0]) != 's')
    ensures SampleTag(a + m + b) == "#" + RemoveBackslashRuns(LowerAll(a)) + RemoveBackslashRuns(LowerAll(b))
  {
    var title, la, lm, lb := a + m + b, LowerAll(a), LowerAll(m), LowerAll(b);
    assert title != "" by {
      assert |title| == |a| + |m| + |b|;
    }
    assert LowerAll(title) == la + lm + lb by {
      LowerAllAppend(a, m);
      LowerAllAppend(a + m, b);
    }
    RemoveBackslashRunsAroundMatch(la, lm, lb);
  }

  /** "Sisters\s" loses only its trailing match: the tag is "#sisters". */
  lemma SampleTagSisters(title: string)
    requires |title| == 9 && title[0] == 'S' && title[1] == 'i' && title[2] == 's' && title[3] == 't'
    requires title[4] == 'e' && title[5] == 'r' && title[6] == 's' && title[7] == '\\' && title[8] == 's'
    ensures SampleTag(title) == "#sisters"
  {
    var a, m := title[..7], title[7..];
    assert title == a + m + [];
    assert LowerAll(m) == m;
    var low := LowerAll(a);
    assert RemoveBackslashRuns(low) == low by {
      assert forall i :: 0 <= i < |low| ==> low[i] != '\\';
      NoBackslashKept(low);
    }
    assert RemoveBackslashRuns(LowerAll([])) == [];
    SampleTagAroundMatch(a, m, []);
    assert Lower('S') == 's';
    assert low == "sisters";
  }

  /** After the `#`, the sample tag keeps every character of the lower-cased
      title other than backslashes and letters `s`, with its number of
      occurrences: spaces are never removed. */
  lemma SampleTagCounts(title: string)
    requires title != ""
    ensures forall x :: x != '\\' && x != 's' ==> multiset(SampleTag(title)[1..])[x] == multiset(LowerAll(title))[x]
  {
    RemoveBackslashRunsCounts(LowerAll(title));
    assert SampleTag(title)[1..] == RemoveBackslashRuns(LowerAll(title));
  }

  /** A title without backslashes is only lower-cased: its spaces stay, so a
      blank title gives `#` followed by those blanks, not an empty tag. */
  lemma SampleTagKeepsWhitespace(title: string)
    requires title != "" && '\\' !in title
    ensures SampleTag(title) == "#" + LowerAll(title)
    ensures |SampleTag(title)| == |title| + 1
    ensures forall i :: 0 <= i < |title| && title[i] == ' ' ==> SampleTag(title)[i + 1] == ' '
  {
    var low := LowerAll(title);
    assert forall i :: 0 <= i < |low| ==> low[i] != '\\';
    NoBackslashKept(low);
  }

  /** "Think Twice" keeps its space: the tag is "#think twice", not "#thinktwice". */
  lemma SampleTagThinkTwice(title: string)
    requires |title| == 11 && title[0] == 'T' && title[1] == 'h' && title[2] == 'i' && title[3] == 'n' && title[4] == 'k'
    requires title[5] == ' ' && title[6] == 'T' && title[7] == 'w' && title[8] == 'i' && title[9] == 'c' && title[10] == 'e'
    ensures SampleTag(title) == "#think twice"
  {
    var low := LowerAll(title);
    assert SampleTag(title) == "#" + low by {
      assert forall i :: 0 <= i < |title| ==> title[i] != '\\';
      SampleTagKeepsWhitespace(title);
    }
    assert Lower('T') == 't';
    assert low[0] == 't' && low[6] == 't';
  }

  /** A blank title gives `#` followed by its blanks. */
  lemma SampleTagBlank(title: string)
    requires title == "   "
    ensures SampleTag(title) == "#   "
  {
    SampleTagKeepsWhitespace(title);
    assert LowerAll(title) == title;
  }

  // ---------------------------------------------------------------------
  // Artist tag

  /** `re.sub(r'[^a-zA-Z0-9]', '', artist.replace(' ', ''))`, or empty for an empty artist. */
  function ArtistCleaned(artist: string): (r: string)
    ensures forall i :: 0 <= i < |r| ==> IsAlnum(r[i])
  {
    if artist != "" then KeepAlnum(Without(artist, ' ')) else ""
  }

  /** The tag derived from the sample artist. */
  function ArtistTag(artist: string): (r: string)
    ensures r != "" ==> r[0] == '#' && forall i :: 1 <= i < |r| ==> IsLowerAlnum(r[i])
  {
    var cleaned := ArtistCleaned(artist);
    if cleaned != "" then "#" + LowerAll(cleaned) else ""
  }

  /** Removing the spaces first changes nothing: the cleaned artist is the
      artist's ASCII letters and digits, in their original order. */
  lemma ArtistCleanedIsAlnumFilter(artist: string)
    ensures ArtistCleaned(artist) == KeepAlnum(artist)
  {
    KeepAlnumWithout(artist, ' ');
  }

  /** The artist tag is empty exactly when the artist has no ASCII letter or
      digit; otherwise it is `#` and those characters, lower-cased. */
  lemma ArtistTagCharacterized(artist: string)
    ensures ArtistTag(artist) == "" <==> forall i :: 0 <= i < |artist| ==> !IsAlnum(artist[i])
    ensures ArtistTag(artist) != "" ==> ArtistTag(artist) == "#" + LowerAll(KeepAlnum(artist))
  {
    ArtistCleanedIsAlnumFilter(artist);
    KeepAlnumEmptyIff(artist);
  }

  /** Feeding an already cleaned artist back in gives the same tag. */
  lemma ArtistCleanedIdempotent(artist: string)
    ensures ArtistCleaned(ArtistCleaned(artist)) == ArtistCleaned(artist)
    ensures ArtistTag(ArtistCleaned(artist)) == ArtistTag(artist)
  {
    var c := ArtistCleaned(artist);
    ArtistCleanedIsAlnumFilter(c);
    KeepAlnumOfAlnum(c);
  }

  /** Feeding the tag's own text (after the `#`) back in gives the same tag. */
  lemma ArtistTagIdempotent(artist: string)
    requires ArtistTag(artist) != ""
    ensures ArtistTag(ArtistTag(artist)[1..]) == ArtistTag(artist)
  {
    var c := ArtistCleaned(artist);
    var body := LowerAll(c);
    assert ArtistTag(artist) == "#" + body;
    assert ArtistTag(artist)[1..] == body;
    assert forall i :: 0 <= i < |body| ==> IsAlnum(body[i]) by {
      forall i | 0 <= i < |body| ensures IsAlnum(body[i]) {
        assert IsAlnum(c[i]);
      }
    }
    ArtistCleanedIsAlnumFilter(body);
    KeepAlnumOfAlnum(body);
    assert ArtistCleaned(body) == body;
    LowerAllIdempotent(c);
  }

  lemma ArtistTagJDilla(artist: string)
    requires artist == "J Dilla"
    ensures ArtistTag(artist) == "#jdilla"
  {
    var cleaned := ArtistCleaned(artist);
    assert cleaned == "JDilla" by { ArtistCleanedIsAlnumFilter(artist); KeepAlnumJDilla(); }
    assert LowerAll(cleaned) == "jdilla" by { LowerJDilla(cleaned); }
  }

  lemma LowerJDilla(s: string)
    requires s == "JDilla"
    ensures LowerAll(s) == "jdilla"
  {
    assert Lower('J') == 'j';
    assert Lower('D') == 'd';
  }

  lemma KeepAlnumJDilla()
    ensures KeepAlnum("J Dilla") == "JDilla"
  {
    KeepAlnumCons('a', "");
    KeepAlnumCons('l', "a");
    KeepAlnumCons('l', "la");
    KeepAlnumCons('i', "lla");
    KeepAlnumCons('D', "illa");
    KeepAlnumCons(' ', "Dilla");
    KeepAlnumCons('J', " Dilla");
  }

  // ---------------------------------------------------------------------
  // Final tag list

  /** `core_tags + rotating_selected + trendy_selected + [sample_tag, artist_tag]`:
      the selections keep their order, and the two derived tags come last,
      sample tag first, even when they are empty. */
  function FinalTags(rotating: seq<string>, trendy: seq<string>, sampleTitle: string, sampleArtist: string): (r: seq<string>)
    ensures |r| == |CoreTags| + |rotating| + |trendy| + 2
    ensures r[..|CoreTags|] == CoreTags
    ensures r[|CoreTags|..|CoreTags| + |rotating|] == rotating
    ensures r[|CoreTags| + |rotating|..|r| - 2] == trendy
    ensures r[|r| - 2] == SampleTag(sampleTitle)
    ensures r[|r| - 1] == ArtistTag(sampleArtist)
  {
    CoreTags + rotating + trendy + [SampleTag(sampleTitle), ArtistTag(sampleArtist)]
  }

  /** A slug tag: empty, or `#` followed by characters of `[a-z0-9]`. */
  predicate IsSlugTag(t: string) {
    t == "" || (t[0] == '#' && forall i :: 1 <= i < |t| ==> IsLowerAlnum(t[i]))
  }

  lemma CoreTagsAreSlugs()
    ensures forall k :: 0 <= k < |CoreTags| ==> CoreTags[k] != "" && IsSlugTag(CoreTags[k])
  {
    assert IsSlugTag(CoreTags[0]);
    assert IsSlugTag(CoreTags[1]);
    assert IsSlugTag(CoreTags[2]);
    assert IsSlugTag(CoreTags[3]);
    assert IsSlugTag(CoreTags[4]);
  }

  lemma RotatingOptionsAreSlugs()
    ensures forall k :: 0 <= k < |RotatingOptions| ==> IsSlugTag(RotatingOptions[k])
  {
    RotatingOptionsSlugsPart1();
    RotatingOptionsSlugsPart2();
    RotatingOptionsSlugsPart3();
  }

  // The options are checked a few at a time to keep each proof small.
  lemma RotatingOptionsSlugsPart1()
    ensures forall k :: 0 <= k < 5 ==> IsSlugTag(RotatingOptions[k])
  {
    assert IsSlugTag(RotatingOptions[0]);
    assert IsSlugTag(RotatingOptions[1]);
    assert IsSlugTag(RotatingOptions[2]);
    assert IsSlugTag(RotatingOptions[3]);
    assert IsSlugTag(RotatingOptions[4]);
  }

  lemma RotatingOptionsSlugsPart2()
    ensures forall k :: 5 <= k < 9 ==> IsSlugTag(RotatingOptions[k])
  {
    assert IsSlugTag(RotatingOptions[5]);
    assert IsSlugTag(RotatingOptions[6]);
    assert IsSlugTag(RotatingOptions[7]);
    assert IsSlugTag(RotatingOptions[8]);
  }

  lemma RotatingOptionsSlugsPart3()
    ensures forall k :: 9 <= k < 13 ==> IsSlugTag(RotatingOptions[k])
  {
    assert IsSlugTag(RotatingOptions[9]);
    assert IsSlugTag(RotatingOptions[10]);
    assert IsSlugTag(RotatingOptions[11]);
    assert IsSlugTag(RotatingOptions[12]);
  }

  lemma TrendyOptionsAreSlugs()
    ensures forall k :: 0 <= k < |TrendyOptions| ==> IsSlugTag(TrendyOptions[k])
  {
    TrendyOptionsSlugsPart1();
    TrendyOptionsSlugsPart2();
  }

  lemma TrendyOptionsSlugsPart1()
    ensures forall k :: 0 <= k < 4 ==> IsSlugTag(TrendyOptions[k])
  {
    assert IsSlugTag(TrendyOptions[0]);
    assert IsSlugTag(TrendyOptions[1]);
    assert IsSlugTag(TrendyOptions[2]);
    assert IsSlugTag(TrendyOptions[3]);
  }

  lemma TrendyOptionsSlugsPart2()
    ensures forall k :: 4 <= k < 8 ==> IsSlugTag(TrendyOptions[k])
  {
    assert IsSlugTag(TrendyOptions[4]);
    assert IsSlugTag(TrendyOptions[5]);
    assert IsSlugTag(TrendyOptions[6]);
    assert IsSlugTag(TrendyOptions[7]);
  }

  /** With selections the widgets allow, every tag except the sample tag is a
      slug tag; the sample tag is empty or starts with `#`. */
  lemma FinalTagsWellFormed(rotating: seq<string>, trendy: seq<string>, sampleTitle: string, sampleArtist: string)
    requires ValidSelection(rotating, trendy)
    ensures var r := FinalTags(rotating, trendy, sampleTitle, sampleArtist);
      && |r| <= |CoreTags| + MaxRotating + |trendy| + 2
      && (forall k :: 0 <= k < |r| && k != |r| - 2 ==> IsSlugTag(r[k]))
      && (r[|r| - 2] == "" || r[|r| - 2][0] == '#')
  {
    var r := FinalTags(rotating, trendy, sampleTitle, sampleArtist);
    CoreTagsAreSlugs();
    RotatingOptionsAreSlugs();
    TrendyOptionsAreSlugs();
    forall k | 0 <= k < |r| && k != |r| - 2
      ensures IsSlugTag(r[k])
    {
      if k < |CoreTags| {
        assert r[k] == CoreTags[k];
      } else if k < |CoreTags| + |rotating| {
        assert r[k] == rotating[k - |CoreTags|];
      } else if k < |CoreTags| + |rotating| + |trendy| {
        assert r[k] == trendy[k - |CoreTags| - |rotating|];
      }
    }
  }

  // ---------------------------------------------------------------------
  // Format modes

  /** The labels of the format radio button other than "With #", which
      reaches the `#`-keeping branch of `Display` like any other value. */
  const WithoutHash: string := "Without #"
  const CommaSeparated: string := "Comma-separated"

  /** `display_tags` is a list of tags in one mode and a string in the others. */
  datatype DisplayTags = TagList(tags: seq<string>) | TagText(text: string)

  /** `tag.replace("#", "")`. */
  function StripHash(tag: string): (r: string)
    ensures '#' !in r
    ensures forall x :: x != '#' ==> multiset(r)[x] == multiset(tag)[x]
  {
    WithoutCounts(tag, '#');
    Without(tag, '#')
  }

  /** `[tag.replace("#", "") for tag in tags]`. */
  function StripAll(tags: seq<string>): (r: seq<string>)
    ensures |r| == |tags|
    ensures forall k :: 0 <= k < |r| ==> r[k] == StripHash(tags[k]) && '#' !in r[k]
  {
    seq(|tags|, k requires 0 <= k < |tags| => StripHash(tags[k]))
  }

  /** Stripping is idempotent, and on a slug tag it only drops the leading `#`. */
  lemma StripHashProperties(tag: string)
    ensures StripHash(StripHash(tag)) == StripHash(tag)
    ensures IsSlugTag(tag) && tag != "" ==> StripHash(tag) == tag[1..]
  {
    WithoutIdempotent(tag, '#');
    if IsSlugTag(tag) && tag != "" {
      assert '#' !in tag[1..] by {
        forall i | 0 <= i < |tag[1..]| ensures tag[1..][i] != '#' {
          assert IsLowerAlnum(tag[i + 1]);
        }
      }
      assert tag == [tag[0]] + tag[1..];
      WithoutLeading(tag[1..], '#');
    }
  }

  lemma StripCoreTags()
    ensures StripAll(CoreTags) == ["boombap", "hiphopinstrumental", "beatmaker", "akai", "wantumeni"]
  {
    CoreTagsAreSlugs();
    forall k | 0 <= k < |CoreTags| ensures StripHash(CoreTags[k]) == CoreTags[k][1..] {
      StripHashProperties(CoreTags[k]);
    }
  }

  /** The value of `display_tags` for the chosen format option; the label
      "With #" and every other value take the last, `#`-keeping branch. */
  function Display(option: string, tags: seq<string>): (r: DisplayTags)
    ensures r.TagList? <==> option == WithoutHash
    ensures r.TagList? ==> |r.tags| == |tags| && forall k :: 0 <= k < |r.tags| ==> '#' !in r.tags[k]
    ensures option == CommaSeparated ==> '#' !in r.text
    ensures option != WithoutHash && option != CommaSeparated && |tags| > 0 ==> tags[0] <= r.text
  {
    if option == WithoutHash then TagList(StripAll(tags))
    else if option == CommaSeparated then TagText(Join(StripAll(tags), ", "))
    else TagText(Join(tags, " "))
  }

  /** Without `#`: one rendered tag per final tag, none holding a `#`. */
  lemma DisplayWithoutHash(tags: seq<string>)
    ensures Display(WithoutHash, tags).TagList?
    ensures var l := Display(WithoutHash, tags).tags;
      |l| == |tags| && forall k :: 0 <= k < |l| ==> '#' !in l[k] && l[k] == StripHash(tags[k])
  {
  }

  /** Comma-separated: no `#` anywhere, and splitting at `", "` gives back the
      stripped tags when none of them contains `", "`. */
  lemma DisplayCommaSeparated(tags: seq<string>)
    ensures Display(CommaSeparated, tags).TagText?
    ensures '#' !in Display(CommaSeparated, tags).text
    ensures |tags| >= 1 && (forall k :: 0 <= k < |tags| ==> !Contains(StripHash(tags[k]), ", "))
      ==> Split(Display(CommaSeparated, tags).text, ", ") == StripAll(tags)
  {
    if |tags| >= 1 && forall k :: 0 <= k < |tags| ==> !Contains(StripHash(tags[k]), ", ") {
      SplitJoin(StripAll(tags), ", ");
    }
  }

  /** Any other option keeps the `#` and joins with one space; splitting at
      the space gives the tags back when none of them contains a space. */
  lemma DisplayWithHash(option: string, tags: seq<string>)
    requires option != WithoutHash && option != CommaSeparated
    ensures Display(option, tags) == TagText(Join(tags, " "))
    ensures |tags| >= 1 && (forall k :: 0 <= k < |tags| ==> ' ' !in tags[k])
      ==> Split(Display(option, tags).text, " ") == tags
  {
    if |tags| >= 1 && forall k :: 0 <= k < |tags| ==> ' ' !in tags[k] {
      forall k | 0 <= k < |tags| ensures !Contains(tags[k], " ") {
        NotContainsChar(tags[k], " ");
      }
      SplitJoin(tags, " ");
    }
  }

  /** An empty last tag is not skipped: the joined text ends with the separator. */
  lemma DisplayEndsWithSeparator(option: string, tags: seq<string>)
    requires option != WithoutHash && |tags| >= 2 && tags[|tags| - 1] == ""
    ensures var sep := if option == CommaSeparated then ", " else " ";
      var text := Display(option, tags).text;
      |text| >= |sep| && text[|text| - |sep|..] == sep
  {
    if option == CommaSeparated {
      assert StripAll(tags)[|tags| - 1] == StripHash("");
      assert StripHash("") == "";
      JoinEndsWithSeparator(StripAll(tags), ", ");
    } else {
      JoinEndsWithSeparator(tags, " ");
    }
  }

  /** An empty artist tag is not dropped, so the tag text ends with the separator. */
  lemma EmptyArtistTagLeavesSeparator(option: string, rotating: seq<string>, trendy: seq<string>, sampleTitle: string)
    requires option != WithoutHash
    ensures var sep := if option == CommaSeparated then ", " else " ";
      var text := Display(option, FinalTags(rotating, trendy, sampleTitle, "")).text;
      |text| >= |sep| && text[|text| - |sep|..] == sep
  {
    assert ArtistTag("") == "";
    DisplayEndsWithSeparator(option, FinalTags(rotating, trendy, sampleTitle, ""));
  }

  /** The copy/paste block: the display string itself, or the list joined by a space. */
  function CopyPaste(d: DisplayTags): (r: string)
    ensures d.TagText? ==> r == d.text
    ensures d.TagList? && |d.tags| > 0 ==> d.tags[0] <= r
  {
    match d
    case TagText(text) => text
    case TagList(l) => Join(l, " ")
  }

  /** In both modes without `#`, the copy/paste block holds no `#`; without
      `#` it is the stripped tags joined by a space. */
  lemma CopyPasteHashFree(option: string, tags: seq<string>)
    requires option == WithoutHash || option == CommaSeparated
    ensures '#' !in CopyPaste(Display(option, tags))
    ensures option == WithoutHash ==> CopyPaste(Display(option, tags)) == Join(StripAll(tags), " ")
  {
  }
}
