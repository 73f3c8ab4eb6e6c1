/** The text helpers `truncateText` and `toTitleCase`. */
module Format {
  import opened Strings

  // ---------------------------------------------------------------------
  // truncateText
  // ---------------------------------------------------------------------

  /** `s.slice(0, end)`: a negative end counts back from the end of the
      text. */
  function SliceTo(s: string, end: int): (r: string)
    ensures 0 <= end <= |s| ==> r == s[..end]
    ensures end > |s| ==> r == s
    ensures end < 0 && |s| + end >= 0 ==> r == s[..|s| + end]
    ensures end < 0 && |s| + end < 0 ==> r == ""
  {
    if end < 0 then (if |s| + end < 0 then "" else s[..|s| + end])
    else if end > |s| then s
    else s[..end]
  }

  /** `truncateText`: a text longer than `maxLength` is cut and `...`
      appended. */
  function Truncate(text: string, maxLength: int): string {
    if |text| <= maxLength then text else SliceTo(text, maxLength) + "..."
  }

  /** A text that fits is returned as it is; a longer one keeps exactly its
      first `maxLength` characters and gets `...`, so it is three characters
      longer than the limit; either way the result starts with as much of
      the text as fits. */
  lemma TruncateMeaning(text: string, maxLength: nat)
    ensures |text| <= maxLength ==> Truncate(text, maxLength) == text
    ensures |text| > maxLength ==> Truncate(text, maxLength) == text[..maxLength] + "..."
    ensures |text| > maxLength ==> |Truncate(text, maxLength)| == maxLength + 3
    ensures text[..if |text| < maxLength then |text| else maxLength] <= Truncate(text, maxLength)
  {
  }

  /** Truncating again with the same limit changes nothing. */
  lemma TruncateIdempotent(text: string, maxLength: nat)
    ensures Truncate(Truncate(text, maxLength), maxLength) == Truncate(text, maxLength)
  {
    if |text| > maxLength {
      var once := Truncate(text, maxLength);
      assert once[..maxLength] == text[..maxLength];
    }
  }

  /** A negative limit never lets a text through unchanged: `slice` then
      drops that many characters from the end. */
  lemma TruncateNegative(text: string, k: nat)
    requires 0 < k <= |text|
    ensures Truncate(text, -(k as int)) == text[..|text| - k] + "..."
  {
  }

  // ---------------------------------------------------------------------
  // toTitleCase
  // ---------------------------------------------------------------------

  /** The replacement `toTitleCase` puts in place of every capital letter:
      a space, the rupee sign and the digit 1. The pattern's `$1` has
      become `₹1`, so no group is substituted. */
  const RupeeOne: string := " \U{20B9}1"

  predicate IsUnderscore(c: char) {
    c == '_'
  }

  /** The camel-case step as written: every capital letter becomes
      ` ₹1`. */
  function MarkCapitals(s: string): string {
    ReplaceAll(s, IsUpper, RupeeOne)
  }

  /** The snake-case step: every underscore becomes a space. */
  function SpaceUnderscores(s: string): string {
    ReplaceAll(s, IsUnderscore, " ")
  }

  /** `word.charAt(0).toUpperCase() + word.slice(1).toLowerCase()`. */
  function TitleWord(w: string): (r: string)
    ensures |r| == |w|
    ensures |w| > 0 ==> r[0] == ToUpperChar(w[0]) && r[1..] == ToLower(w[1..])
  {
    if |w| == 0 then "" else [ToUpperChar(w[0])] + ToLower(w[1..])
  }

  function TitleWords(ws: seq<string>): (r: seq<string>)
    ensures |r| == |ws|
    ensures forall i :: 0 <= i < |ws| ==> r[i] == TitleWord(ws[i])
  {
    seq(|ws|, i requires 0 <= i < |ws| => TitleWord(ws[i]))
  }

  /** Title-cases the words of a text already split into words. */
  function TitleOf(s: string): string {
    Join(TitleWords(Split(s, ' ')), " ")
  }

  /** `toTitleCase`, as written. */
  function ToTitleCase(s: string): string {
    TitleOf(SpaceUnderscores(MarkCapitals(s)))
  }

  /** The camel-case step the code evidently means (`' $1'`): a space
      before every capital letter, the letter kept. */
  function SpaceCapitals(s: string): (r: string)
    decreases |s|
  {
    if |s| == 0 then ""
    else (if IsUpper(s[0]) then " " + [s[0]] else [s[0]]) + SpaceCapitals(s[1..])
  }

  /** `toTitleCase` with the evident replacement. */
  function ToTitleCaseFixed(s: string): string {
    TitleOf(SpaceUnderscores(SpaceCapitals(s)))
  }

  /** A text without capitals, spaces or underscores. */
  predicate PlainWord(s: string) {
    forall i :: 0 <= i < |s| ==> !IsUpper(s[i]) && s[i] != ' ' && s[i] != '_'
  }

  lemma {:induction false} ReplaceAllConcat(a: string, b: string, p: char -> bool, repl: string)
    ensures ReplaceAll(a + b, p, repl) == ReplaceAll(a, p, repl) + ReplaceAll(b, p, repl)
    decreases |a|
  {
    if |a| > 0 {
      assert (a + b)[1..] == a[1..] + b;
      ReplaceAllConcat(a[1..], b, p, repl);
    } else {
      assert a + b == b;
    }
  }

  /** Replacing characters that do not occur changes nothing. */
  lemma {:induction false} ReplaceAllNone(s: string, p: char -> bool, repl: string)
    requires forall i :: 0 <= i < |s| ==> !p(s[i])
    ensures ReplaceAll(s, p, repl) == s
    decreases |s|
  {
    if |s| > 0 {
      ReplaceAllNone(s[1..], p, repl);
      assert [s[0]] + s[1..] == s;
    }
  }

  /** Turning underscores into spaces in a text without spaces and then
      splitting at spaces splits the text at its underscores. */
  lemma {:induction false} SplitSpacedUnderscores(s: string)
    requires ' ' !in s
    ensures Split(SpaceUnderscores(s), ' ') == Split(s, '_')
    decreases |s|
  {
    if |s| > 0 {
      SplitSpacedUnderscores(s[1..]);
      var rest := SpaceUnderscores(s[1..]);
      if s[0] == '_' {
        assert SpaceUnderscores(s) == " " + rest;
        assert (" " + rest)[1..] == rest;
      } else {
        assert SpaceUnderscores(s) == [s[0]] + rest;
        assert ([s[0]] + rest)[1..] == rest;
      }
    }
  }

  /** Title-casing a word introduces no space. */
  lemma TitleWordWithout(w: string)
    requires ' ' !in w
    ensures ' ' !in TitleWord(w)
  {
    if |w| > 0 {
      assert w[0] != ' ';
      assert TitleWord(w) == [ToUpperChar(w[0])] + ToLower(w[1..]);
    }
  }

  /** For lower-case snake_case (no capitals, no spaces) the words of the
      result are the `_`-separated pieces, each title-cased: as many words
      as pieces. */
  lemma TitleCaseSnake(s: string)
    requires forall i :: 0 <= i < |s| ==> !IsUpper(s[i]) && s[i] != ' '
    ensures Split(ToTitleCase(s), ' ') == TitleWords(Split(s, '_'))
    ensures |Split(ToTitleCase(s), ' ')| == |Split(s, '_')|
  {
    ReplaceAllNone(s, IsUpper, RupeeOne);
    SplitSpacedUnderscores(s);
    var pieces := Split(s, '_');
    PiecesWithout(s, '_', ' ');
    forall i | 0 <= i < |pieces|
      ensures ' ' !in TitleWords(pieces)[i]
    {
      TitleWordWithout(pieces[i]);
    }
    SplitJoin(TitleWords(pieces), ' ');
  }

  /** As written, a camel-case word loses its capital: the capital is
      replaced by `₹1` after a space, so `camelCase` reads
      `Camel ₹1ase`. */
  lemma CamelCaseAsWritten(a: string, c: char, b: string)
    requires PlainWord(a) && PlainWord(b) && IsUpper(c)
    ensures ToTitleCase(a + [c] + b) == TitleWord(a) + " " + "\U{20B9}1" + b
  {
    CamelMarked(a, c, b);
    var marked := a + " " + ("\U{20B9}1" + b);
    assert MarkCapitals(a + [c] + b) == marked;
    ReplaceAllNone(marked, IsUnderscore, " ");
    TwoWords(a, "\U{20B9}1" + b);
    TitleWordRupee(b);
  }

  /** The rupee sign and the digit are left as they are by title-casing. */
  lemma TitleWordRupee(b: string)
    requires PlainWord(b)
    ensures TitleWord("\U{20B9}1" + b) == "\U{20B9}1" + b
  {
    LowerPlain(b);
    assert ("\U{20B9}1" + b)[1..] == "1" + b;
    assert ToLower("1" + b) == "1" + b;
  }

  lemma CamelMarked(a: string, c: char, b: string)
    requires PlainWord(a) && PlainWord(b) && IsUpper(c)
    ensures MarkCapitals(a + [c] + b) == a + " " + ("\U{20B9}1" + b)
  {
    ReplaceAllConcat(a + [c], b, IsUpper, RupeeOne);
    ReplaceAllConcat(a, [c], IsUpper, RupeeOne);
    ReplaceAllNone(a, IsUpper, RupeeOne);
    ReplaceAllNone(b, IsUpper, RupeeOne);
    assert ReplaceAll([c], IsUpper, RupeeOne) == RupeeOne;
  }

  /** Two space-free words joined by a space title-case word by word. */
  lemma TwoWords(a: string, b: string)
    requires ' ' !in a && ' ' !in b
    ensures TitleOf(a + " " + b) == TitleWord(a) + " " + TitleWord(b)
  {
    SplitWithout(b, ' ');
    SplitAfterPiece(a, ' ', b);
    assert a + " " + b == a + [' '] + b;
    assert Split(a + " " + b, ' ') == [a, b];
    var ws := [TitleWord(a), TitleWord(b)];
    assert TitleWords([a, b]) == ws;
    assert ws[1..] == [TitleWord(b)];
    assert Join(ws, " ") == TitleWord(a) + " " + Join(ws[1..], " ");
  }

  /** Lower-casing a text without capitals changes nothing. */
  lemma LowerPlain(s: string)
    requires forall i :: 0 <= i < |s| ==> !IsUpper(s[i])
    ensures ToLower(s) == s
  {
  }

  /** With the evident replacement, a camel-case word splits before its
      capital: `camelCase` reads `Camel Case`. */
  lemma CamelCaseFixed(a: string, c: char, b: string)
    requires PlainWord(a) && PlainWord(b) && IsUpper(c)
    ensures ToTitleCaseFixed(a + [c] + b) == TitleWord(a) + " " + [c] + b
  {
    SpacedCapital(a, c, b);
    var spaced := a + " " + ([c] + b);
    ReplaceAllNone(spaced, IsUnderscore, " ");
    TwoWords(a, [c] + b);
    assert TitleWord([c] + b) == [c] + b by {
      LowerPlain(b);
      assert ([c] + b)[1..] == b;
    }
  }

  lemma SpacedCapital(a: string, c: char, b: string)
    requires PlainWord(a) && PlainWord(b) && IsUpper(c)
    ensures SpaceCapitals(a + [c] + b) == a + " " + ([c] + b)
  {
    SpaceCapitalsConcat(a + [c], b);
    SpaceCapitalsConcat(a, [c]);
    SpaceCapitalsPlain(a);
    SpaceCapitalsPlain(b);
    assert SpaceCapitals([c]) == " " + [c];
  }

  lemma {:induction false} SpaceCapitalsConcat(a: string, b: string)
    ensures SpaceCapitals(a + b) == SpaceCapitals(a) + SpaceCapitals(b)
    decreases |a|
  {
    if |a| > 0 {
      assert (a + b)[1..] == a[1..] + b;
      SpaceCapitalsConcat(a[1..], b);
    } else {
      assert a + b == b;
    }
  }

  lemma {:induction false} SpaceCapitalsPlain(s: string)
    requires forall i :: 0 <= i < |s| ==> !IsUpper(s[i])
    ensures SpaceCapitals(s) == s
    decreases |s|
  {
    if |s| > 0 {
      SpaceCapitalsPlain(s[1..]);
      assert [s[0]] + s[1..] == s;
    }
  }

  /** On text without capitals the two versions agree. */
  lemma FixedAgreesWithoutCapitals(s: string)
    requires forall i :: 0 <= i < |s| ==> !IsUpper(s[i])
    ensures ToTitleCaseFixed(s) == ToTitleCase(s)
  {
    SpaceCapitalsPlain(s);
    ReplaceAllNone(s, IsUpper, RupeeOne);
  }

  /** `toTitleCase("camelCase")` is `Camel ₹1ase`; the evident version
      gives `Camel Case`. */
  lemma CamelCaseExample()
    ensures ToTitleCase("camel" + "C" + "ase") == "Camel" + " " + "\U{20B9}1" + "ase"
    ensures ToTitleCaseFixed("camel" + "C" + "ase") == "Camel" + " " + "C" + "ase"
  {
    ExampleWords();
    CamelCaseAsWritten("camel", 'C', "ase");
    CamelCaseFixed("camel", 'C', "ase");
  }

  lemma ExampleWords()
    ensures PlainWord("camel") && PlainWord("ase") && IsUpper('C')
    ensures TitleWord("camel") == "Camel"
  {
  }
}
