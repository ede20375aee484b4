/**
 * The word list of the hero title (src/nextgen.js, initHeroAnimations):
 * `heroTitle.textContent.trim().split(/\s+/).filter(w => w.length > 0)`.
 *
 * JavaScript strings are sequences of UTF-16 code units, and both `trim()`
 * and the regular-expression class `\s` work on code units, so text is a
 * sequence of `CodeUnit` here.
 */
module TitleText {

  newtype CodeUnit = x: int | 0 <= x < 0x1_0000

  const Space: CodeUnit := 0x20

  /** ECMAScript WhiteSpace and LineTerminator code units: the set that both
      `String.prototype.trim` and `\s` remove or match. */
  predicate IsWhiteSpace(c: CodeUnit) {
    (0x09 <= c <= 0x0D) || c == 0x20 || c == 0xA0 || c == 0x1680
    || (0x2000 <= c <= 0x200A) || c == 0x2028 || c == 0x2029 || c == 0x202F
    || c == 0x205F || c == 0x3000 || c == 0xFEFF
  }

  predicate NoWhiteSpace(s: seq<CodeUnit>) {
    forall i :: 0 <= i < |s| ==> !IsWhiteSpace(s[i])
  }

  predicate AllWhiteSpace(s: seq<CodeUnit>) {
    forall i :: 0 <= i < |s| ==> IsWhiteSpace(s[i])
  }

  /** The code units of a literal written in ASCII. */
  function Units(s: string): (r: seq<CodeUnit>)
    ensures |r| == |s|
  {
    seq(|s|, i requires 0 <= i < |s| => (s[i] as int % 0x1_0000) as CodeUnit)
  }

  // ---------------------------------------------------------------------
  // trim() and split(/\s+/)

  /** `s` without its leading run of white space, which `trim()` drops and
      `split(/\s+/)` reads as one separator. */
  function SkipWhiteSpace(s: seq<CodeUnit>): (r: seq<CodeUnit>)
    ensures |r| <= |s| && r == s[|s| - |r|..]
    ensures s != [] && IsWhiteSpace(s[0]) ==> |r| < |s|
    ensures forall i :: 0 <= i < |s| - |r| ==> IsWhiteSpace(s[i])
    ensures r == [] || !IsWhiteSpace(r[0])
  {
    if s != [] && IsWhiteSpace(s[0]) then
      var r := SkipWhiteSpace(s[1..]);
      assert forall i :: 1 <= i < |s| ==> s[i] == s[1..][i - 1];
      r
    else s
  }

  /** `s` without its trailing white space. */
  function TrimEnd(s: seq<CodeUnit>): (r: seq<CodeUnit>)
    ensures |r| <= |s| && r == s[..|r|]
    ensures forall i :: |r| <= i < |s| ==> IsWhiteSpace(s[i])
    ensures r == [] || !IsWhiteSpace(r[|r| - 1])
  {
    if s != [] && IsWhiteSpace(s[|s| - 1]) then TrimEnd(s[..|s| - 1]) else s
  }

  /** `String.prototype.trim`: the text between the leading and the trailing
      white space (`TrimSlice` says where it sits in `s`). */
  function Trim(s: seq<CodeUnit>): (r: seq<CodeUnit>)
    ensures |r| <= |s|
    ensures r == [] || (!IsWhiteSpace(r[0]) && !IsWhiteSpace(r[|r| - 1]))
  {
    TrimEnd(SkipWhiteSpace(s))
  }

  /** The trimmed text is a slice of `s` with only white space before and
      after it. */
  lemma TrimSlice(s: seq<CodeUnit>) returns (i: nat, j: nat)
    ensures i <= j <= |s| && Trim(s) == s[i..j]
    ensures forall k :: 0 <= k < i ==> IsWhiteSpace(s[k])
    ensures forall k :: j <= k < |s| ==> IsWhiteSpace(s[k])
  {
    var a := SkipWhiteSpace(s);
    var r := TrimEnd(a);
    i := |s| - |a|;
    j := i + |r|;
    assert r == a[..|r|];
    forall k | j <= k < |s| ensures IsWhiteSpace(s[k]) {
      assert s[k] == a[k - i];
    }
  }

  /** `split(/\s+/)` of `field + s`, where `field` is the field being read:
      each maximal run of white space ends a field, so a leading run yields an
      empty first field and a trailing run an empty last field, and the empty
      text yields one empty field. */
  function SplitFrom(s: seq<CodeUnit>, field: seq<CodeUnit>): (fields: seq<seq<CodeUnit>>)
    ensures |fields| >= 1
    decreases |s|
  {
    if s == [] then [field]
    else if IsWhiteSpace(s[0]) then [field] + SplitFrom(SkipWhiteSpace(s), [])
    else SplitFrom(s[1..], field + [s[0]])
  }

  function SplitOnWhiteSpace(s: seq<CodeUnit>): seq<seq<CodeUnit>> {
    SplitFrom(s, [])
  }

  /** `filter(w => w.length > 0)`. */
  function DropEmpty(fields: seq<seq<CodeUnit>>): (r: seq<seq<CodeUnit>>)
    ensures forall k :: 0 <= k < |r| ==> r[k] != []
    ensures |r| <= |fields|
    ensures multiset(r) == multiset(fields)[[] := 0]
  {
    if fields == [] then []
    else
      var rest := DropEmpty(fields[1..]);
      assert fields == [fields[0]] + fields[1..];
      if fields[0] == [] then rest
      else [fields[0]] + rest
  }

  /** Filtering works token by token: it keeps the order of the tokens. */
  lemma {:induction false} DropEmptyAppend(a: seq<seq<CodeUnit>>, b: seq<seq<CodeUnit>>)
    ensures DropEmpty(a + b) == DropEmpty(a) + DropEmpty(b)
    decreases |a|
  {
    if a != [] {
      assert (a + b)[0] == a[0] && (a + b)[1..] == a[1..] + b;
      DropEmptyAppend(a[1..], b);
    } else {
      assert a + b == b;
    }
  }

  /** The words of the hero title, in order. */
  function Words(text: seq<CodeUnit>): seq<seq<CodeUnit>> {
    DropEmpty(SplitOnWhiteSpace(Trim(text)))
  }

  /** `parts.join(sep)`. */
  function Join(parts: seq<seq<CodeUnit>>, sep: seq<CodeUnit>): seq<CodeUnit> {
    if |parts| == 0 then []
    else if |parts| == 1 then parts[0]
    else parts[0] + sep + Join(parts[1..], sep)
  }

  // ---------------------------------------------------------------------
  // Reference: white space collapsed

  /** `s` with every maximal run of white space replaced by one space. */
  function Collapse(s: seq<CodeUnit>): seq<CodeUnit>
    decreases |s|
  {
    if s == [] then []
    else if IsWhiteSpace(s[0]) then [Space] + Collapse(SkipWhiteSpace(s))
    else [s[0]] + Collapse(s[1..])
  }

  lemma {:induction false} DropEmptyOfNonEmpty(fields: seq<seq<CodeUnit>>)
    requires forall k :: 0 <= k < |fields| ==> fields[k] != []
    ensures DropEmpty(fields) == fields
  {
    if fields != [] {
      DropEmptyOfNonEmpty(fields[1..]);
    }
  }

  /** Skipping leading white space keeps a non-space last code unit. */
  lemma SkipKeepsLast(s: seq<CodeUnit>)
    requires s != [] && !IsWhiteSpace(s[|s| - 1])
    ensures SkipWhiteSpace(s) != []
    ensures SkipWhiteSpace(s)[|SkipWhiteSpace(s)| - 1] == s[|s| - 1]
  {
  }

  lemma AppendNoWhiteSpace(field: seq<CodeUnit>, c: CodeUnit)
    requires NoWhiteSpace(field) && !IsWhiteSpace(c)
    ensures NoWhiteSpace(field + [c])
  {
    var f := field + [c];
    forall i | 0 <= i < |f| ensures !IsWhiteSpace(f[i]) {
      if i < |field| { assert f[i] == field[i]; }
    }
  }

  lemma JoinCons(p: seq<CodeUnit>, rest: seq<seq<CodeUnit>>, sep: seq<CodeUnit>)
    requires rest != []
    ensures Join([p] + rest, sep) == p + sep + Join(rest, sep)
  {
    assert ([p] + rest)[1..] == rest;
  }

  /** One step of `SplitFromJoin` at a run of white space. */
  lemma JoinAfterSpace(s: seq<CodeUnit>, field: seq<CodeUnit>)
    requires s != [] && IsWhiteSpace(s[0])
    requires Join(SplitFrom(SkipWhiteSpace(s), []), [Space]) == Collapse(SkipWhiteSpace(s))
    ensures Join(SplitFrom(s, field), [Space]) == field + Collapse(s)
  {
    var t := SkipWhiteSpace(s);
    var rest := SplitFrom(t, []);
    assert SplitFrom(s, field) == [field] + rest;
    assert Collapse(s) == [Space] + Collapse(t);
    JoinCons(field, rest, [Space]);
  }

  /** One step of `SplitFromJoin` at a code unit that is not white space. */
  lemma JoinAfterUnit(s: seq<CodeUnit>, field: seq<CodeUnit>)
    requires s != [] && !IsWhiteSpace(s[0])
    requires Join(SplitFrom(s[1..], field + [s[0]]), [Space]) == field + [s[0]] + Collapse(s[1..])
    ensures Join(SplitFrom(s, field), [Space]) == field + Collapse(s)
  {
    assert SplitFrom(s, field) == SplitFrom(s[1..], field + [s[0]]);
    assert Collapse(s) == [s[0]] + Collapse(s[1..]);
    AppendAssoc(field, [s[0]], Collapse(s[1..]));
  }

  lemma AppendAssoc(a: seq<CodeUnit>, b: seq<CodeUnit>, c: seq<CodeUnit>)
    ensures a + b + c == a + (b + c)
  {
  }

  /** Joining the fields of a split with single spaces collapses each run of
      white space to one space. */
  lemma {:induction false} SplitFromJoin(s: seq<CodeUnit>, field: seq<CodeUnit>)
    ensures Join(SplitFrom(s, field), [Space]) == field + Collapse(s)
    decreases |s|
  {
    if s == [] {
    } else if IsWhiteSpace(s[0]) {
      SplitFromJoin(SkipWhiteSpace(s), []);
      JoinAfterSpace(s, field);
    } else {
      SplitFromJoin(s[1..], field + [s[0]]);
      JoinAfterUnit(s, field);
    }
  }

  /** Words that are non-empty and free of white space. */
  predicate WellFormedWords(words: seq<seq<CodeUnit>>) {
    forall k :: 0 <= k < |words| ==> words[k] != [] && NoWhiteSpace(words[k])
  }

  lemma WellFormedCons(w: seq<CodeUnit>, rest: seq<seq<CodeUnit>>)
    requires w != [] && NoWhiteSpace(w) && WellFormedWords(rest)
    ensures WellFormedWords([w] + rest)
  {
    var ws := [w] + rest;
    forall k | 0 <= k < |ws| ensures ws[k] != [] && NoWhiteSpace(ws[k]) {
      if k > 0 { assert ws[k] == rest[k - 1]; }
    }
  }

  /** Splitting text that ends in a non-space, with a non-empty field or a
      non-space next, yields only non-empty, space-free fields. */
  lemma {:induction false} SplitFromFields(s: seq<CodeUnit>, field: seq<CodeUnit>)
    requires NoWhiteSpace(field)
    requires s == [] || !IsWhiteSpace(s[|s| - 1])
    requires field != [] || (s != [] && !IsWhiteSpace(s[0]))
    ensures WellFormedWords(SplitFrom(s, field))
    decreases |s|
  {
    if s == [] {
      assert SplitFrom(s, field) == [field];
    } else if IsWhiteSpace(s[0]) {
      var t := SkipWhiteSpace(s);
      SkipKeepsLast(s);
      SplitFromFields(t, []);
      assert SplitFrom(s, field) == [field] + SplitFrom(t, []);
      WellFormedCons(field, SplitFrom(t, []));
    } else {
      var f := field + [s[0]];
      AppendNoWhiteSpace(field, s[0]);
      assert SplitFrom(s, field) == SplitFrom(s[1..], f);
      if s[1..] != [] { assert s[1..][|s[1..]| - 1] == s[|s| - 1]; }
      SplitFromFields(s[1..], f);
    }
  }

  /** The word list of text with no white space at either end. */
  lemma WordsOfTrimmed(t: seq<CodeUnit>)
    requires t == [] || (!IsWhiteSpace(t[0]) && !IsWhiteSpace(t[|t| - 1]))
    ensures t == [] ==> DropEmpty(SplitOnWhiteSpace(t)) == []
    ensures t != [] ==> DropEmpty(SplitOnWhiteSpace(t)) == SplitOnWhiteSpace(t)
    ensures WellFormedWords(DropEmpty(SplitOnWhiteSpace(t)))
  {
    if t == [] {
      assert SplitOnWhiteSpace(t) == [[]];
      assert DropEmpty([[]]) == DropEmpty([]);
    } else {
      SplitFromFields(t, []);
      DropEmptyOfNonEmpty(SplitOnWhiteSpace(t));
    }
  }

  /** The words are exactly the runs of the trimmed text between white space:
      each is non-empty and holds no white space, and joining them with single
      spaces gives the trimmed text with each run of white space collapsed to
      one space. */
  lemma WordsSpec(text: seq<CodeUnit>)
    ensures WellFormedWords(Words(text))
    ensures Join(Words(text), [Space]) == Collapse(Trim(text))
  {
    var t := Trim(text);
    WordsOfTrimmed(t);
    SplitFromJoin(t, []);
    if t == [] {
      assert Collapse(t) == [];
    }
  }

  /** A title with no text but white space has no words, and any other title
      has at least one. */
  lemma WordsEmpty(text: seq<CodeUnit>)
    ensures Words(text) == [] <==> AllWhiteSpace(text)
  {
    var t := Trim(text);
    WordsOfTrimmed(t);
    var i, j := TrimSlice(text);
    if t == [] {
      assert i == j;
      assert AllWhiteSpace(text) by {
        forall k | 0 <= k < |text| ensures IsWhiteSpace(text[k]) {
          if k >= j { } else { }
        }
      }
    } else {
      assert text[i] == t[0];
      assert SplitOnWhiteSpace(t) != [];
      assert !AllWhiteSpace(text);
    }
  }

  lemma {:induction false} SplitFromWord(w: seq<CodeUnit>, t: seq<CodeUnit>, field: seq<CodeUnit>)
    requires NoWhiteSpace(w)
    ensures SplitFrom(w + t, field) == SplitFrom(t, field + w)
    decreases |w|
  {
    if w == [] {
      assert w + t == t && field + w == field;
    } else {
      assert (w + t)[0] == w[0] && (w + t)[1..] == w[1..] + t;
      assert !IsWhiteSpace(w[0]);
      assert SplitFrom(w + t, field) == SplitFrom(w[1..] + t, field + [w[0]]);
      assert NoWhiteSpace(w[1..]) by {
        forall i | 0 <= i < |w[1..]| ensures !IsWhiteSpace(w[1..][i]) {
          assert w[1..][i] == w[i + 1];
        }
      }
      SplitFromWord(w[1..], t, field + [w[0]]);
      assert field + [w[0]] + w[1..] == field + w;
    }
  }

  lemma {:induction false} SplitOfJoin(words: seq<seq<CodeUnit>>)
    requires words != [] && WellFormedWords(words)
    ensures SplitFrom(Join(words, [Space]), []) == words
    decreases |words|
  {
    var w := words[0];
    if |words| == 1 {
      SplitFromWord(w, [], []);
      assert w + [] == w && [] + w == w;
      assert words == [w];
    } else {
      var rest := Join(words[1..], [Space]);
      SplitOfJoin(words[1..]);
      JoinStartsWithWord(words[1..]);
      assert Join(words, [Space]) == w + ([Space] + rest);
      SplitFromWord(w, [Space] + rest, []);
      assert [] + w == w;
      assert SkipWhiteSpace([Space] + rest) == rest by {
        assert ([Space] + rest)[1..] == rest;
      }
      assert SplitFrom([Space] + rest, w) == [w] + SplitFrom(rest, []);
      assert words == [w] + words[1..];
    }
  }

  /** The single-space join of well-formed words starts and ends with a
      non-space. */
  lemma {:induction false} JoinStartsWithWord(words: seq<seq<CodeUnit>>)
    requires words != [] && WellFormedWords(words)
    ensures Join(words, [Space]) != []
    ensures Join(words, [Space])[0] == words[0][0]
    ensures !IsWhiteSpace(Join(words, [Space])[|Join(words, [Space])| - 1])
    decreases |words|
  {
    if |words| > 1 {
      JoinStartsWithWord(words[1..]);
      var rest := Join(words[1..], [Space]);
      assert Join(words, [Space]) == words[0] + [Space] + rest;
    }
  }

  /** Joining well-formed words with single spaces and taking the words of
      that text again gives back the same words: the word list loses nothing
      but the white space between words. */
  lemma WordsOfJoin(words: seq<seq<CodeUnit>>)
    requires WellFormedWords(words)
    ensures Words(Join(words, [Space])) == words
  {
    if words == [] {
      assert SplitOnWhiteSpace([]) == [[]];
      assert DropEmpty([[]]) == DropEmpty([]);
    } else {
      var text := Join(words, [Space]);
      JoinStartsWithWord(words);
      assert SkipWhiteSpace(text) == text;
      assert TrimEnd(text) == text;
      SplitOfJoin(words);
      DropEmptyOfNonEmpty(words);
    }
  }
}
