/**
 * The markup the hero title is rebuilt with (src/nextgen.js,
 * initHeroAnimations): one word span per word, joined by a single space,
 * each holding one letter span per UTF-16 code unit of the word, with the
 * code unit inserted verbatim (no HTML escaping).
 */
module TitleMarkup {

  import opened Wrappers
  import opened TitleText

  const SpanStart: seq<CodeUnit> := Units("<span")

  /** The opening tag of a letter span. */
  const LetterOpen: seq<CodeUnit> :=
    SpanStart + Units(" class=\"hero-letter\" style=\"display: inline-block;\">")

  /** The opening tag of a word span. */
  const WordOpen: seq<CodeUnit> :=
    SpanStart + Units(" class=\"hero-word\" style=\"display: inline-block; margin-right: 0.25em;\">")

  /** The closing tag of both kinds of span. */
  const Close: seq<CodeUnit> := Units("</span>")

  /** `map` over a sequence. */
  function MapSeq<A, B>(f: A -> B, s: seq<A>): (r: seq<B>)
    ensures |r| == |s|
    ensures forall k :: 0 <= k < |s| ==> r[k] == f(s[k])
  {
    if s == [] then [] else [f(s[0])] + MapSeq(f, s[1..])
  }

  function LetterSpan(c: CodeUnit): seq<CodeUnit> {
    LetterOpen + [c] + Close
  }

  /** `word.split('').map(letter => ...).join('')`. */
  function Letters(word: seq<CodeUnit>): seq<CodeUnit> {
    Join(MapSeq(LetterSpan, word), [])
  }

  function WordSpan(word: seq<CodeUnit>): seq<CodeUnit> {
    WordOpen + Letters(word) + Close
  }

  /** The new `innerHTML` of the title: `words.map(...).join(' ')`. */
  function TitleHtml(words: seq<seq<CodeUnit>>): seq<CodeUnit> {
    Join(MapSeq(WordSpan, words), [Space])
  }

  /** The markup `initHeroAnimations` writes for the title's text. */
  function SplitTitle(text: seq<CodeUnit>): seq<CodeUnit> {
    TitleHtml(Words(text))
  }

  // ---------------------------------------------------------------------
  // Reading the markup back

  predicate StartsWith(m: seq<CodeUnit>, p: seq<CodeUnit>) {
    |p| <= |m| && m[..|p|] == p
  }

  /** Reads letter spans up to the closing tag of their word span; returns
      the letters and what follows that closing tag. */
  function ParseLetters(m: seq<CodeUnit>): (r: Option<(seq<CodeUnit>, seq<CodeUnit>)>)
    ensures r.Some? ==> |r.value.1| + |Close| <= |m|
    decreases |m|
  {
    if StartsWith(m, Close) then Some(([], m[|Close|..]))
    else if StartsWith(m, LetterOpen) && |LetterOpen| < |m|
            && StartsWith(m[|LetterOpen| + 1..], Close) then
      match ParseLetters(m[|LetterOpen| + 1 + |Close|..])
      case None => None
      case Some((w, rest)) => Some(([m[|LetterOpen|]] + w, rest))
    else None
  }

  function ParseWordSpan(m: seq<CodeUnit>): (r: Option<(seq<CodeUnit>, seq<CodeUnit>)>)
    ensures r.Some? ==> |r.value.1| < |m|
  {
    if StartsWith(m, WordOpen) then ParseLetters(m[|WordOpen|..]) else None
  }

  /** Reads one or more word spans separated by single spaces. */
  function ParseWordSpans(m: seq<CodeUnit>): Option<seq<seq<CodeUnit>>>
    decreases |m|
  {
    match ParseWordSpan(m)
    case None => None
    case Some((w, rest)) =>
      if rest == [] then Some([w])
      else if rest[0] == Space then
        match ParseWordSpans(rest[1..])
        case None => None
        case Some(ws) => Some([w] + ws)
      else None
  }

  /** The words a title markup holds, or None if it is not title markup. */
  function ParseTitle(m: seq<CodeUnit>): Option<seq<seq<CodeUnit>>> {
    if m == [] then Some([]) else ParseWordSpans(m)
  }

  // ---------------------------------------------------------------------
  // Lemmas

  lemma PrefixOf(p: seq<CodeUnit>, rest: seq<CodeUnit>)
    ensures StartsWith(p + rest, p) && (p + rest)[|p|..] == rest
  {
    assert (p + rest)[..|p|] == p;
  }

  /** A letter span never starts like a closing tag. */
  lemma LetterSpanIsNotClose(m: seq<CodeUnit>)
    requires StartsWith(m, LetterOpen)
    ensures !StartsWith(m, Close)
  {
    assert m[1] == LetterOpen[1] == SpanStart[1] == ('s' as int % 0x1_0000) as CodeUnit;
    assert Close[1] == ('/' as int % 0x1_0000) as CodeUnit;
  }

  lemma LettersCons(word: seq<CodeUnit>)
    requires word != []
    ensures Letters(word) == LetterSpan(word[0]) + Letters(word[1..])
  {
    var spans := MapSeq(LetterSpan, word);
    assert spans[1..] == MapSeq(LetterSpan, word[1..]);
    if |word| == 1 {
      assert word[1..] == [];
    }
  }

  lemma ParseLettersAtClose(rest: seq<CodeUnit>)
    ensures ParseLetters(Close + rest) == Some(([], rest))
  {
    PrefixOf(Close, rest);
  }

  lemma ParseLettersAtLetter(c: CodeUnit, tail: seq<CodeUnit>)
    ensures ParseLetters(LetterSpan(c) + tail) ==
            match ParseLetters(tail)
            case None => None
            case Some((w, rest)) => Some(([c] + w, rest))
  {
    var m := LetterSpan(c) + tail;
    var n := |LetterOpen|;
    assert m == LetterOpen + ([c] + (Close + tail));
    PrefixOf(LetterOpen, [c] + (Close + tail));
    LetterSpanIsNotClose(m);
    assert m[n] == c;
    assert m[n + 1..] == Close + tail;
    PrefixOf(Close, tail);
    assert m[n + 1 + |Close|..] == tail;
  }

  lemma {:induction false} ParseLettersOfLetters(word: seq<CodeUnit>, rest: seq<CodeUnit>)
    ensures ParseLetters(Letters(word) + Close + rest) == Some((word, rest))
    decreases |word|
  {
    if word == [] {
      assert Letters(word) + Close + rest == Close + rest;
      ParseLettersAtClose(rest);
    } else {
      var tail := Letters(word[1..]) + Close + rest;
      LettersCons(word);
      assert Letters(word) + Close + rest == LetterSpan(word[0]) + tail;
      ParseLettersAtLetter(word[0], tail);
      ParseLettersOfLetters(word[1..], rest);
      assert [word[0]] + word[1..] == word;
    }
  }

  lemma ParseWordSpanOfWordSpan(word: seq<CodeUnit>, rest: seq<CodeUnit>)
    ensures ParseWordSpan(WordSpan(word) + rest) == Some((word, rest))
  {
    var m := WordSpan(word) + rest;
    assert m == WordOpen + (Letters(word) + Close + rest);
    PrefixOf(WordOpen, Letters(word) + Close + rest);
    ParseLettersOfLetters(word, rest);
  }

  lemma {:induction false} ParseWordSpansOfHtml(words: seq<seq<CodeUnit>>)
    requires words != []
    ensures ParseWordSpans(TitleHtml(words)) == Some(words)
    decreases |words|
  {
    var spans := MapSeq(WordSpan, words);
    if |words| == 1 {
      assert TitleHtml(words) == WordSpan(words[0]) + [];
      ParseWordSpanOfWordSpan(words[0], []);
      assert words == [words[0]];
    } else {
      assert spans[1..] == MapSeq(WordSpan, words[1..]);
      var tail := TitleHtml(words[1..]);
      assert TitleHtml(words) == WordSpan(words[0]) + ([Space] + tail);
      ParseWordSpanOfWordSpan(words[0], [Space] + tail);
      assert ([Space] + tail)[1..] == tail;
      ParseWordSpansOfHtml(words[1..]);
      assert words == [words[0]] + words[1..];
    }
  }

  /** The title markup reads back as exactly the words it was built from:
      one word span per word, separated by single spaces, in order, each
      holding one letter span per code unit of the word with that code unit
      verbatim. So no two word lists give the same markup. */
  lemma TitleHtmlRoundTrip(words: seq<seq<CodeUnit>>)
    ensures ParseTitle(TitleHtml(words)) == Some(words)
  {
    if words != [] {
      ParseWordSpansOfHtml(words);
      assert TitleHtml(words) == WordSpan(words[0]) + TitleHtml(words)[|WordSpan(words[0])|..] by {
        TitleHtmlStartsWithWordSpan(words);
      }
    }
  }

  lemma TitleHtmlStartsWithWordSpan(words: seq<seq<CodeUnit>>)
    requires words != []
    ensures StartsWith(TitleHtml(words), WordSpan(words[0]))
  {
    var spans := MapSeq(WordSpan, words);
    if |words| > 1 {
      assert TitleHtml(words) == WordSpan(words[0]) + ([Space] + Join(spans[1..], [Space]));
      PrefixOf(WordSpan(words[0]), [Space] + Join(spans[1..], [Space]));
    }
  }

  /** Every letter span has the same length. */
  const LetterSpanLength: nat := |LetterOpen| + 1 + |Close|

  lemma {:induction false} LettersLength(word: seq<CodeUnit>)
    ensures |Letters(word)| == |word| * LetterSpanLength
    decreases |word|
  {
    if word != [] {
      LettersCons(word);
      LettersLength(word[1..]);
      assert |word| * LetterSpanLength == LetterSpanLength + (|word| - 1) * LetterSpanLength;
    }
  }

  lemma SliceAfter(head: seq<CodeUnit>, tail: seq<CodeUnit>, lo: nat, hi: nat)
    requires lo <= hi <= |tail|
    ensures (head + tail)[|head| + lo..|head| + hi] == tail[lo..hi]
  {
    var m := head + tail;
    assert forall i :: 0 <= i < hi - lo ==> m[|head| + lo..|head| + hi][i] == tail[lo..hi][i];
  }

  /** The letter spans of a word: exactly one per code unit, the k-th holding
      the k-th code unit of the word, verbatim. */
  lemma {:induction false} LettersAt(word: seq<CodeUnit>, k: nat)
    requires k < |word|
    ensures |Letters(word)| == |word| * LetterSpanLength
    ensures Letters(word)[k * LetterSpanLength..(k + 1) * LetterSpanLength] == LetterSpan(word[k])
    decreases |word|
  {
    var n := LetterSpanLength;
    LettersLength(word);
    LettersCons(word);
    var head := LetterSpan(word[0]);
    var tail := Letters(word[1..]);
    assert |head| == n;
    if k == 0 {
      assert Letters(word)[..n] == head;
    } else {
      LettersAt(word[1..], k - 1);
      var lo := (k - 1) * n;
      assert k * n == lo + n && (k + 1) * n == lo + n + n;
      SliceAfter(head, tail, lo, lo + n);
    }
  }

  lemma UnitsAppend(a: string, b: string)
    ensures Units(a + b) == Units(a) + Units(b)
  {
    assert forall i :: 0 <= i < |a| ==> (a + b)[i] == a[i];
    assert forall i :: |a| <= i < |a| + |b| ==> (a + b)[i] == b[i - |a|];
  }

  /** A non-empty word of printable ASCII other than the space is a
      well-formed word. */
  lemma PrintableWord(s: string)
    requires s != []
    requires forall i :: 0 <= i < |s| ==> 0x20 < s[i] as int < 0x7F
    ensures Units(s) != [] && NoWhiteSpace(Units(s))
  {
  }

  /** Total number of letter spans in the markup of `words`. */
  function LetterCount(words: seq<seq<CodeUnit>>): nat {
    if words == [] then 0 else |words[0]| + LetterCount(words[1..])
  }

  /** An example title: three word spans holding 4, 7 and 5 letter
      spans, 16 in all. */
  lemma RentSmarterToday()
    ensures Words(Units("Rent Smarter Today")) == [Units("Rent"), Units("Smarter"), Units("Today")]
    ensures ParseTitle(SplitTitle(Units("Rent Smarter Today"))) ==
            Some([Units("Rent"), Units("Smarter"), Units("Today")])
    ensures LetterCount(Words(Units("Rent Smarter Today"))) == 16
  {
    var words := [Units("Rent"), Units("Smarter"), Units("Today")];
    var t := "Rent Smarter Today";
    assert t[..4] == "Rent" by { assert |t[..4]| == 4; }
    assert t[4..5] == " " by { assert |t[4..5]| == 1; }
    assert t[5..12] == "Smarter" by { assert |t[5..12]| == 7; }
    assert t[12..13] == " " by { assert |t[12..13]| == 1; }
    assert t[13..] == "Today" by { assert |t[13..]| == 5; }
    assert t == t[..4] + t[4..5] + (t[5..12] + t[12..13] + t[13..]);
    UnitsAppend("Rent" + " ", "Smarter" + " " + "Today");
    UnitsAppend("Rent", " ");
    UnitsAppend("Smarter" + " ", "Today");
    UnitsAppend("Smarter", " ");
    assert Units(" ") == [Space];
    assert words[1..] == [Units("Smarter"), Units("Today")];
    assert words[1..][1..] == [Units("Today")];
    assert Join(words[1..][1..], [Space]) == Units("Today");
    assert Join(words[1..], [Space]) == Units("Smarter") + [Space] + Units("Today");
    assert Join(words, [Space]) == Units("Rent") + [Space] + (Units("Smarter") + [Space] + Units("Today"));
    assert Units("Rent Smarter Today") == Join(words, [Space]);
    PrintableWord("Rent");
    PrintableWord("Smarter");
    PrintableWord("Today");
    WordsOfJoin(words);
    TitleHtmlRoundTrip(words);
  }
}
