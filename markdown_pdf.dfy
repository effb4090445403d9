/**
 * The Markdown-to-PDF converter's text logic: `clean_text`, which replaces
 * box-drawing and typographic symbols by ASCII, and the line loop that sorts
 * each line into a code block, heading, table row, bullet, rule, paragraph or
 * nothing. What the loop emits is a list of blocks; fonts, cell layout and
 * page breaks belong to the PDF library and are not modelled.
 */
module MarkdownPdf {
  import opened Wrappers
  import opened Strings

  // ------------------------------------------------------------------
  // clean_text
  // ------------------------------------------------------------------

  /** The dictionary's entries with a one-character key that is not ASCII,
      in its order: arrows and box drawing, marks and dashes, then, after the
      two quote lines, the brackets. */
  const Table: seq<(char, string)> := Symbols + Brackets

  /** The entries before the two quote lines. */
  const Symbols: seq<(char, string)> := BoxDrawing + Marks

  const BoxDrawing: seq<(char, string)> := [
    ('←', "<-"), ('→', "->"), ('↓', "v"), ('▼', "v"), ('│', "|"),
    ('├', "|--"), ('└', "\\--"), ('┌', "+--"), ('┐', "--+"), ('┘', "--+"),
    ('┬', "-+-"), ('┴', "-+-"), ('─', "-"), ('━', "-"), ('┼', "+")
  ]

  const Marks: seq<(char, string)> := [
    ('◄', "<"), ('►', ">"), ('●', "*"), ('○', "o"), ('■', "[#]"),
    ('□', "[ ]"), ('▪', "-"), ('▫', "-"), ('★', "*"), ('☆', "*"),
    ('✓', "[v]"), ('✗', "[x]"), ('✔', "[v]"), ('✘', "[x]"), ('•', "*"),
    ('◦', "o"), ('–', "-"), ('—', "-"), ('…', "...")
  ]

  const Brackets: seq<(char, string)> := [
    ('「', "["), ('」', "]"), ('『', "["), ('』', "]"), ('【', "["), ('】', "]"),
    ('〈', "<"), ('〉', ">"), ('《', "<<"), ('》', ">>")
  ]

  /** Lines 49-50: the ASCII double quote mapped to itself, written twice, so
      the dictionary keeps one entry. */
  const DoubleQuote: char := '"'

  /** Lines 51-52: the first three single quotes open a triple-quoted string
      and the next three close it, so the key is the text between them: a
      colon, a space, the three quote marks and a comma, then the line break
      and the eight spaces that indent line 52. It maps to one single quote. */
  const QuoteKey: string := ": \"'\",\n        "
  const QuoteValue: string := "'"

  /** The dictionary as written, in insertion order: `str.replace` pattern
      and replacement. */
  const Replacements: seq<(string, string)> :=
    Lift(Symbols) + [([DoubleQuote], [DoubleQuote]), (QuoteKey, QuoteValue)] + Lift(Brackets)

  /** One-character keys as strings. */
  function Lift(t: seq<(char, string)>): (r: seq<(string, string)>)
    ensures |r| == |t|
    ensures forall k :: 0 <= k < |t| ==> r[k] == ([t[k].0], t[k].1)
  {
    seq(|t|, k requires 0 <= k < |t| => ([t[k].0], t[k].1))
  }

  /** The curly quotes U+201C, U+201D, U+2018 and U+2019 that the quote lines
      evidently stand for; the dictionary as written holds none of them. */
  const CurlyQuotes: seq<(char, string)> := [
    ('\U{201C}', "\""), ('\U{201D}', "\""), ('\U{2018}', "'"), ('\U{2019}', "'")
  ]

  /** The table the quote lines evidently intend. */
  const IntendedTable: seq<(char, string)> := Symbols + CurlyQuotes + Brackets

  predicate IsAscii(c: char)
  {
    c as int < 128
  }

  predicate AllAscii(s: string)
  {
    forall i :: 0 <= i < |s| ==> IsAscii(s[i])
  }

  /** Every key is a non-ASCII symbol and every substitute is plain ASCII. */
  predicate WellFormedTable(t: seq<(char, string)>)
  {
    forall k :: 0 <= k < |t| ==> !IsAscii(t[k].0) && AllAscii(t[k].1)
  }

  /** Two well-formed tables make a well-formed table. */
  lemma WellFormedConcat(a: seq<(char, string)>, b: seq<(char, string)>)
    requires WellFormedTable(a) && WellFormedTable(b)
    ensures WellFormedTable(a + b)
  {
    forall k | 0 <= k < |a + b| ensures !IsAscii((a + b)[k].0) && AllAscii((a + b)[k].1) {
      if k < |a| {
        assert (a + b)[k] == a[k];
      } else {
        assert (a + b)[k] == b[k - |a|];
      }
    }
  }

  lemma BoxDrawingWellFormed()
    ensures WellFormedTable(BoxDrawing)
  {
  }

  lemma MarksWellFormed()
    ensures WellFormedTable(Marks)
  {
  }

  lemma BracketsWellFormed()
    ensures WellFormedTable(Brackets)
  {
  }

  lemma TableWellFormed()
    ensures WellFormedTable(Symbols) && WellFormedTable(Brackets)
    ensures WellFormedTable(Table)
  {
    BoxDrawingWellFormed();
    MarksWellFormed();
    BracketsWellFormed();
    WellFormedConcat(BoxDrawing, Marks);
    WellFormedConcat(Symbols, Brackets);
  }

  /** The substitute for `c` in the table, if `c` is one of its keys; the
      first entry wins. */
  function Lookup(t: seq<(char, string)>, c: char): (r: Option<string>)
    ensures r.None? <==> forall k :: 0 <= k < |t| ==> t[k].0 != c
    ensures r.Some? ==> exists k :: 0 <= k < |t| && t[k] == (c, r.value)
  {
    if t == [] then None
    else
      var init := t[..|t| - 1];
      var r := Lookup(init, c);
      assert forall k :: 0 <= k < |init| ==> init[k] == t[k];
      if r.Some? then r
      else if t[|t| - 1].0 == c then Some(t[|t| - 1].1)
      else None
  }

  /** What one character becomes. */
  function Image(t: seq<(char, string)>, c: char): string
  {
    match Lookup(t, c)
    case Some(sub) => sub
    case None => [c]
  }

  /** The reference definition: every character replaced by its image at
      once. */
  function Substitute(t: seq<(char, string)>, s: string): string
  {
    if s == [] then [] else Image(t, s[0]) + Substitute(t, s[1..])
  }

  /** `str.replace` with a one-character pattern. */
  function ReplaceChar(s: string, c: char, r: string): string
  {
    if s == [] then [] else (if s[0] == c then r else [s[0]]) + ReplaceChar(s[1..], c, r)
  }

  lemma {:induction false} ReplaceCharAppend(a: string, b: string, c: char, r: string)
    ensures ReplaceChar(a + b, c, r) == ReplaceChar(a, c, r) + ReplaceChar(b, c, r)
  {
    if a == [] {
      assert a + b == b;
    } else {
      assert (a + b)[0] == a[0] && (a + b)[1..] == a[1..] + b;
      ReplaceCharAppend(a[1..], b, c, r);
    }
  }

  lemma {:induction false} ReplaceCharAbsent(s: string, c: char, r: string)
    requires c !in s
    ensures ReplaceChar(s, c, r) == s
  {
    if s != [] {
      ReplaceCharAbsent(s[1..], c, r);
    }
  }

  lemma {:induction false} SubstituteAppend(t: seq<(char, string)>, a: string, b: string)
    ensures Substitute(t, a + b) == Substitute(t, a) + Substitute(t, b)
  {
    if a == [] {
      assert a + b == b;
    } else {
      assert (a + b)[0] == a[0] && (a + b)[1..] == a[1..] + b;
      SubstituteAppend(t, a[1..], b);
    }
  }

  /** One character: the new key cannot occur inside an earlier substitute,
      since those are ASCII, and a character already substituted keeps its
      first entry. */
  lemma ImageExtends(t: seq<(char, string)>, k: nat, x: char)
    requires k < |t| && WellFormedTable(t)
    ensures ReplaceChar(Image(t[..k], x), t[k].0, t[k].1) == Image(t[..k + 1], x)
  {
    assert t[..k + 1][..k] == t[..k];
    match Lookup(t[..k], x)
    case Some(sub) =>
      var j :| 0 <= j < k && t[..k][j] == (x, sub);
      assert AllAscii(t[j].1);
      assert t[k].0 !in sub;
      ReplaceCharAbsent(sub, t[k].0, t[k].1);
    case None =>
      assert ReplaceChar([x], t[k].0, t[k].1) == (if x == t[k].0 then t[k].1 else [x]) + ReplaceChar([], t[k].0, t[k].1);
  }

  /** One more `replace` turns the substitution by the first k entries into
      the substitution by the first k + 1. */
  lemma {:induction false} ReplaceExtends(t: seq<(char, string)>, k: nat, s: string)
    requires k < |t| && WellFormedTable(t)
    ensures ReplaceChar(Substitute(t[..k], s), t[k].0, t[k].1) == Substitute(t[..k + 1], s)
  {
    if s != [] {
      ReplaceCharAppend(Image(t[..k], s[0]), Substitute(t[..k], s[1..]), t[k].0, t[k].1);
      ReplaceExtends(t, k, s[1..]);
      ImageExtends(t, k, s[0]);
    }
  }

  /** The substitute of a character is left alone by a second pass. */
  lemma {:induction false} SubstituteFixesAscii(t: seq<(char, string)>, s: string)
    requires WellFormedTable(t) && AllAscii(s)
    ensures Substitute(t, s) == s
  {
    if s != [] {
      SubstituteFixesAscii(t, s[1..]);
    }
  }

  /** clean_text is idempotent. */
  lemma {:induction false} SubstituteIdempotent(t: seq<(char, string)>, s: string)
    requires WellFormedTable(t)
    ensures Substitute(t, Substitute(t, s)) == Substitute(t, s)
  {
    if s != [] {
      var x := s[0];
      SubstituteAppend(t, Image(t, x), Substitute(t, s[1..]));
      SubstituteIdempotent(t, s[1..]);
      match Lookup(t, x)
      case Some(sub) =>
        var j :| 0 <= j < |t| && t[j] == (x, sub);
        SubstituteFixesAscii(t, sub);
      case None =>
        assert Substitute(t, [x]) == Image(t, x) + Substitute(t, []);
    }
  }

  /** No key of the table survives the substitution, and a character that is
      not a key comes through as itself. */
  lemma {:induction false} SubstituteRemovesKeys(t: seq<(char, string)>, s: string, k: nat)
    requires WellFormedTable(t) && k < |t|
    ensures t[k].0 !in Substitute(t, s)
  {
    if s != [] {
      SubstituteRemovesKeys(t, s[1..], k);
      match Lookup(t, s[0])
      case Some(sub) =>
        var j :| 0 <= j < |t| && t[j] == (s[0], sub);
        assert AllAscii(sub);
      case None =>
    }
  }

  lemma {:induction false} SubstituteKeepsOthers(t: seq<(char, string)>, s: string)
    requires forall i :: 0 <= i < |s| ==> Lookup(t, s[i]).None?
    ensures Substitute(t, s) == s
  {
    if s != [] {
      SubstituteKeepsOthers(t, s[1..]);
    }
  }

  /** The ASCII double quote entry changes nothing. */
  lemma {:induction false} ReplaceCharSelf(s: string, c: char)
    ensures ReplaceChar(s, c, [c]) == s
  {
    if s != [] {
      ReplaceCharSelf(s[1..], c);
    }
  }

  /** A character absent from the text stays absent when the substitutes
      are ASCII and the character is not. */
  lemma {:induction false} SubstituteKeepsAbsent(t: seq<(char, string)>, s: string, c: char)
    requires WellFormedTable(t) && !IsAscii(c) && c !in s
    ensures c !in Substitute(t, s)
  {
    if s != [] {
      SubstituteKeepsAbsent(t, s[1..], c);
      match Lookup(t, s[0])
      case Some(sub) =>
        var j :| 0 <= j < |t| && t[j] == (s[0], sub);
        assert AllAscii(sub);
      case None =>
    }
  }

  /** Python's `str.replace` with a non-empty pattern: occurrences are
      replaced from left to right without overlapping. */
  function ReplaceStr(s: string, p: string, r: string): (res: string)
    requires |p| > 0
    ensures !Contains(s, p) ==> res == s
    ensures forall c :: c in res ==> c in s || c in r
    decreases |s|
  {
    if s == [] then []
    else if StartsWith(s, p) then
      assert OccursAt(s, p, 0);
      r + ReplaceStr(s[|p|..], p, r)
    else
      ContainsTail(s, p);
      [s[0]] + ReplaceStr(s[1..], p, r)
  }

  lemma ContainsTail(s: string, p: string)
    requires s != []
    ensures Contains(s[1..], p) ==> Contains(s, p)
  {
    if Contains(s[1..], p) {
      var i :| 0 <= i <= |s[1..]| - |p| && OccursAt(s[1..], p, i);
      assert s[i + 1..i + 1 + |p|] == s[1..][i..i + |p|];
      assert OccursAt(s, p, i + 1);
    }
  }

  /** With a one-character pattern, `str.replace` is ReplaceChar. */
  lemma {:induction false} ReplaceStrSingle(s: string, c: char, r: string)
    ensures ReplaceStr(s, [c], r) == ReplaceChar(s, c, r)
  {
    if s != [] {
      assert StartsWith(s, [c]) <==> s[0] == c;
      ReplaceStrSingle(s[1..], c, r);
    }
  }

  /** clean_text as written, as a reference definition: the symbols at
      once, then the three-line quote key, then the brackets. */
  function Clean(text: string): string
  {
    Substitute(Brackets, ReplaceStr(Substitute(Symbols, text), QuoteKey, QuoteValue))
  }

  /** The text after the first k passes of the replace loop. */
  function CleanUpTo(text: string, k: nat): string
    requires k <= |Replacements|
  {
    if k <= |Symbols| then Substitute(Symbols[..k], text)
    else if k == |Symbols| + 1 then Substitute(Symbols, text)
    else Substitute(Brackets[..k - |Symbols| - 2], ReplaceStr(Substitute(Symbols, text), QuoteKey, QuoteValue))
  }

  /** Substitution by the empty table changes nothing. */
  lemma SubstituteNone(s: string)
    ensures Substitute([], s) == s
  {
    SubstituteKeepsOthers([], s);
  }

  /** One pass of the replace loop. */
  lemma CleanStep(text: string, k: nat)
    requires k < |Replacements|
    ensures |Replacements[k].0| > 0
    ensures ReplaceStr(CleanUpTo(text, k), Replacements[k].0, Replacements[k].1) == CleanUpTo(text, k + 1)
  {
    TableWellFormed();
    var n := |Symbols|;
    assert |Replacements| == n + 2 + |Brackets|;
    if k < n {
      assert Replacements[k] == Lift(Symbols)[k];
      ReplaceStrSingle(CleanUpTo(text, k), Symbols[k].0, Symbols[k].1);
      ReplaceExtends(Symbols, k, text);
      if k + 1 == n {
        assert Symbols[..k + 1] == Symbols;
      }
    } else if k == n {
      assert Replacements[k] == ([DoubleQuote], [DoubleQuote]);
      assert Symbols[..k] == Symbols;
      ReplaceStrSingle(CleanUpTo(text, k), DoubleQuote, [DoubleQuote]);
      ReplaceCharSelf(CleanUpTo(text, k), DoubleQuote);
    } else if k == n + 1 {
      assert Replacements[k] == (QuoteKey, QuoteValue);
      SubstituteNone(ReplaceStr(Substitute(Symbols, text), QuoteKey, QuoteValue));
    } else {
      var j := k - n - 2;
      var u := ReplaceStr(Substitute(Symbols, text), QuoteKey, QuoteValue);
      assert Replacements[k] == Lift(Brackets)[j];
      ReplaceStrSingle(Substitute(Brackets[..j], u), Brackets[j].0, Brackets[j].1);
      ReplaceExtends(Brackets, j, u);
    }
  }

  /** The replace loop over a dictionary's items, item by item. */
  function ReplaceAllSpec(items: seq<(string, string)>, text: string): string
    requires forall k :: 0 <= k < |items| ==> |items[k].0| > 0
  {
    if items == [] then text
    else
      var last := items[|items| - 1];
      ReplaceStr(ReplaceAllSpec(items[..|items| - 1], text), last.0, last.1)
  }

  /** `for old, new in replacements.items(): text = text.replace(old, new)`. */
  method ReplaceAll(items: seq<(string, string)>, text: string) returns (r: string)
    requires forall k :: 0 <= k < |items| ==> |items[k].0| > 0
    ensures r == ReplaceAllSpec(items, text)
  {
    r := text;
    for k := 0 to |items|
      invariant r == ReplaceAllSpec(items[..k], text)
    {
      assert items[..k + 1][..k] == items[..k];
      r := ReplaceStr(r, items[k].0, items[k].1);
    }
    assert items[..|items|] == items;
  }

  /** Every key of the dictionary as written is non-empty. */
  lemma KeysNonEmpty()
    ensures forall k :: 0 <= k < |Replacements| ==> |Replacements[k].0| > 0
  {
    forall k | 0 <= k < |Replacements| ensures |Replacements[k].0| > 0 {
      CleanStep("", k);
    }
  }

  /** One more item extends the loop by one `str.replace`. */
  lemma ReplaceAllSnoc(items: seq<(string, string)>, text: string, k: nat)
    requires k < |items| && forall j :: 0 <= j < |items| ==> |items[j].0| > 0
    ensures ReplaceAllSpec(items[..k + 1], text) == ReplaceStr(ReplaceAllSpec(items[..k], text), items[k].0, items[k].1)
  {
    assert items[..k + 1][..k] == items[..k];
  }

  /** The first k passes of the loop over the dictionary as written. */
  lemma {:induction false} ReplaceAllUpTo(text: string, k: nat)
    requires k <= |Replacements|
    ensures forall j :: 0 <= j < |Replacements[..k]| ==> |Replacements[..k][j].0| > 0
    ensures ReplaceAllSpec(Replacements[..k], text) == CleanUpTo(text, k)
  {
    KeysNonEmpty();
    if k == 0 {
      SubstituteNone(text);
      assert Symbols[..0] == [] && Replacements[..0] == [];
    } else {
      ReplaceAllUpTo(text, k - 1);
      ReplaceAllSnoc(Replacements, text, k - 1);
      CleanStep(text, k - 1);
    }
  }

  /** clean_text: the replace loop over the dictionary as written. */
  method CleanText(text: string) returns (cleaned: string)
    ensures cleaned == Clean(text)
  {
    KeysNonEmpty();
    cleaned := ReplaceAll(Replacements, text);
    ReplaceAllUpTo(text, |Replacements|);
    assert Replacements[..|Replacements|] == Replacements;
    assert Brackets[..|Replacements| - |Symbols| - 2] == Brackets;
  }

  /** What clean_text promises, stated over the reference definition: no
      tabled symbol survives; ASCII text is changed only where the quote key
      occurs; and a result without the quote key is cleaned to itself. */
  lemma CleanTextSpec(text: string)
    ensures forall k :: 0 <= k < |Table| ==> Table[k].0 !in Clean(text)
    ensures AllAscii(text) ==> Clean(text) == ReplaceStr(text, QuoteKey, QuoteValue)
    ensures !Contains(Clean(text), QuoteKey) ==> Clean(Clean(text)) == Clean(text)
  {
    TableWellFormed();
    var u := Substitute(Symbols, text);
    var v := ReplaceStr(u, QuoteKey, QuoteValue);
    forall k | 0 <= k < |Table| ensures Table[k].0 !in Clean(text) {
      if k < |Symbols| {
        assert Table[k] == Symbols[k];
        SubstituteRemovesKeys(Symbols, text, k);
        assert !IsAscii(Symbols[k].0);
        SubstituteKeepsAbsent(Brackets, v, Symbols[k].0);
      } else {
        assert Table[k] == Brackets[k - |Symbols|];
        SubstituteRemovesKeys(Brackets, v, k - |Symbols|);
      }
    }
    if AllAscii(text) {
      CleanOfAscii(text);
    }
    var y := Clean(text);
    if !Contains(y, QuoteKey) {
      forall i | 0 <= i < |y| ensures Lookup(Symbols, y[i]).None? && Lookup(Brackets, y[i]).None? {
        forall k | 0 <= k < |Symbols| ensures Symbols[k].0 != y[i] {
          assert Table[k] == Symbols[k];
        }
        forall k | 0 <= k < |Brackets| ensures Brackets[k].0 != y[i] {
          assert Table[|Symbols| + k] == Brackets[k];
        }
      }
      SubstituteKeepsOthers(Symbols, y);
      SubstituteKeepsOthers(Brackets, y);
    }
  }

  /** A character where the pattern does not start is copied. */
  lemma ReplaceStrCopies(c: char, s: string, p: string, r: string)
    requires |p| > 0 && !StartsWith([c] + s, p)
    ensures ReplaceStr([c] + s, p, r) == [c] + ReplaceStr(s, p, r)
  {
    assert ([c] + s)[1..] == s;
  }

  /** An occurrence at the front is replaced. */
  lemma ReplaceStrHit(s: string, p: string, r: string)
    requires |p| > 0
    ensures ReplaceStr(p + s, p, r) == r + ReplaceStr(s, p, r)
  {
    assert StartsWith(p + s, p) && (p + s)[|p|..] == s;
  }

  /** ASCII text is changed only by the quote key. */
  lemma CleanOfAscii(text: string)
    requires AllAscii(text)
    ensures Clean(text) == ReplaceStr(text, QuoteKey, QuoteValue)
  {
    TableWellFormed();
    SubstituteFixesAscii(Symbols, text);
    var v := ReplaceStr(text, QuoteKey, QuoteValue);
    assert AllAscii(v) by {
      forall i | 0 <= i < |v| ensures IsAscii(v[i]) {
        assert v[i] in v;
      }
    }
    SubstituteFixesAscii(Brackets, v);
  }

  /** Around one occurrence of a pattern, its first three characters before
      it and all but its first four after it, replacing the pattern by its
      fourth character yields the pattern again. */
  lemma ReplaceReassembles(p: string, r: string)
    requires |p| >= 4 && p[1] != p[0] && p[2] != p[0] && p[3] != p[0] && r == [p[3]]
    ensures ReplaceStr(p[..3] + p + p[4..], p, r) == p
  {
    var rest := p + p[4..];
    assert p[..3] + p + p[4..] == [p[0]] + ([p[1]] + ([p[2]] + rest));
    NotPrefixAt([p[0]] + ([p[1]] + ([p[2]] + rest)), p, 3);
    NotPrefixAt([p[1]] + ([p[2]] + rest), p, 0);
    NotPrefixAt([p[2]] + rest, p, 0);
    ReplaceStrCopies(p[0], [p[1]] + ([p[2]] + rest), p, r);
    ReplaceStrCopies(p[1], [p[2]] + rest, p, r);
    ReplaceStrCopies(p[2], rest, p, r);
    ReplaceStrHit(p[4..], p, r);
    assert !Contains(p[4..], p);
    FirstFour(p);
  }

  lemma FirstFour(p: string)
    requires |p| >= 4
    ensures p == [p[0]] + ([p[1]] + ([p[2]] + ([p[3]] + p[4..])))
  {
    assert p[3..] == [p[3]] + p[4..];
    assert p[2..] == [p[2]] + p[3..];
    assert p[1..] == [p[1]] + p[2..];
    assert p == [p[0]] + p[1..];
  }

  /** The characters of the quote key that the counterexample relies on. */
  lemma QuoteKeyShape()
    ensures |QuoteKey| >= 4 && QuoteKey[1] != QuoteKey[0] && QuoteKey[2] != QuoteKey[0]
    ensures QuoteKey[3] != QuoteKey[0] && QuoteValue == [QuoteKey[3]]
    ensures AllAscii(QuoteKey)
  {
  }

  lemma AsciiAround(p: string)
    requires |p| >= 4 && AllAscii(p)
    ensures AllAscii(p[..3] + p + p[4..])
  {
    var x := p[..3] + p + p[4..];
    forall i | 0 <= i < |x| ensures IsAscii(x[i]) {
      if i < 3 {
        assert x[i] == p[i];
      } else if i < 3 + |p| {
        assert x[i] == p[i - 3];
      } else {
        assert x[i] == p[i - 3 - |p| + 4];
      }
    }
  }

  /** clean_text is not idempotent as written: cleaning can assemble the
      quote key from text around one occurrence of it. */
  lemma QuoteKeyReassembled()
    ensures var x := QuoteKey[..3] + QuoteKey + QuoteKey[4..];
            Clean(x) == QuoteKey && Clean(Clean(x)) == QuoteValue
  {
    QuoteKeyShape();
    AsciiAround(QuoteKey);
    CleanOfAscii(QuoteKey[..3] + QuoteKey + QuoteKey[4..]);
    ReplaceReassembles(QuoteKey, QuoteValue);
    CleanOfAscii(QuoteKey);
    ReplaceStrHit([], QuoteKey, QuoteValue);
    assert QuoteKey + [] == QuoteKey;
  }

  /** Neither table as written has a curly quote as key. */
  lemma NoCurlyKey(c: char)
    requires c == '\U{201C}' || c == '\U{2019}'
    ensures Lookup(Symbols, c).None? && Lookup(Brackets, c).None?
  {
    forall k | 0 <= k < |Symbols| ensures Symbols[k].0 != c {
      if k < |BoxDrawing| {
        assert Symbols[k] == BoxDrawing[k];
      } else {
        assert Symbols[k] == Marks[k - |BoxDrawing|];
      }
    }
  }

  /** The intended table removes the left double curly quote. */
  lemma IntendedRemovesCurly(s: string)
    ensures '\U{201C}' !in Substitute(IntendedTable, s)
  {
    TableWellFormed();
    assert WellFormedTable(IntendedTable) by {
      WellFormedConcat(Symbols, CurlyQuotes);
      WellFormedConcat(Symbols + CurlyQuotes, Brackets);
    }
    assert IntendedTable[|Symbols|].0 == '\U{201C}';
    SubstituteRemovesKeys(IntendedTable, s, |Symbols|);
  }

  /** As written, curly quotes pass through clean_text unchanged, while the
      intended table would replace them. */
  lemma CurlyQuotesKept()
    ensures Clean("\U{201C}\U{2019}") == "\U{201C}\U{2019}"
    ensures '\U{201C}' !in Substitute(IntendedTable, "\U{201C}\U{2019}")
  {
    var s := "\U{201C}\U{2019}";
    forall i | 0 <= i < |s| ensures Lookup(Symbols, s[i]).None? && Lookup(Brackets, s[i]).None? {
      NoCurlyKey(s[i]);
    }
    SubstituteKeepsOthers(Symbols, s);
    assert !Contains(s, QuoteKey);
    SubstituteKeepsOthers(Brackets, s);
    IntendedRemovesCurly(s);
  }

  // ------------------------------------------------------------------
  // Inline markup: re.sub(r'\*\*(.+?)\*\*', r'\1', ...) and its two siblings
  // ------------------------------------------------------------------

  /** The first occurrence of `d` at or after `start`. */
  function FindFrom(s: string, d: string, start: nat): (r: Option<nat>)
    ensures r.Some? ==> start <= r.value && OccursAt(s, d, r.value)
                        && forall j :: start <= j < r.value ==> !OccursAt(s, d, j)
    ensures r.None? ==> forall j :: start <= j ==> !OccursAt(s, d, j)
    decreases |s| - start
  {
    if start + |d| > |s| then None
    else if OccursAt(s, d, start) then Some(start)
    else FindFrom(s, d, start + 1)
  }

  /** One left-to-right, non-greedy pass removing paired delimiters `d`
      around a non-empty content: at a delimiter with a later closing one,
      the content up to the nearest closing delimiter is kept; otherwise the
      character is kept and the scan moves on by one. */
  function StripPairs(s: string, d: string): (r: string)
    requires |d| > 0
    ensures |r| <= |s|
    decreases |s|
  {
    if s == [] then []
    else if StartsWith(s, d) && FindFrom(s, d, |d| + 1).Some? then
      var j := FindFrom(s, d, |d| + 1).value;
      s[|d|..j] + StripPairs(s[j + |d|..], d)
    else [s[0]] + StripPairs(s[1..], d)
  }

  /** Bold, then italics, then inline code. */
  function StripMarkup(line: string): string
  {
    StripPairs(StripPairs(StripPairs(line, "**"), "*"), "`")
  }

  /** Text without the delimiter passes through unchanged. */
  lemma {:induction false} StripPairsNoDelimiter(s: string, d: string)
    requires |d| > 0 && forall j :: 0 <= j ==> !OccursAt(s, d, j)
    ensures StripPairs(s, d) == s
    decreases |s|
  {
    if s != [] {
      assert !OccursAt(s, d, 0);
      forall j | 0 <= j ensures !OccursAt(s[1..], d, j) {
        assert !OccursAt(s, d, j + 1);
        assert j + |d| <= |s| - 1 ==> s[j + 1..j + 1 + |d|] == s[1..][j..j + |d|];
      }
      StripPairsNoDelimiter(s[1..], d);
    }
  }

  predicate NoChar(s: string, c: char)
  {
    forall i :: 0 <= i < |s| ==> s[i] != c
  }

  lemma NoCharNoDelimiter(s: string, d: string)
    requires |d| > 0 && NoChar(s, d[0])
    ensures forall j :: 0 <= j ==> !OccursAt(s, d, j)
  {
    forall j | 0 <= j ensures !OccursAt(s, d, j) {
      assert j + |d| <= |s| ==> s[j..j + |d|][0] == s[j];
    }
  }

  /** A delimited word loses its delimiters: "**x**" becomes x. */
  lemma {:induction false} StripPairsDelimited(x: string, d: string)
    requires |d| > 0 && x != [] && NoChar(x, d[0])
    ensures StripPairs(d + x + d, d) == x
  {
    var s := d + x + d;
    assert StartsWith(s, d) by {
      assert s[..|d|] == d;
    }
    var e := |d| + |x|;
    assert OccursAt(s, d, e) by {
      assert s[e..e + |d|] == d;
    }
    forall j | |d| + 1 <= j < e ensures !OccursAt(s, d, j) {
      assert s[j] == x[j - |d|];
      assert j + |d| <= |s| ==> s[j..j + |d|][0] == s[j];
    }
    assert FindFrom(s, d, |d| + 1) == Some(e);
    assert s[|d|..e] == x;
    assert s[e + |d|..] == [];
  }

  /** "*x*" holds no "**" when x is a non-empty word without stars. */
  lemma ItalicHasNoBold(x: string)
    requires x != [] && NoChar(x, '*')
    ensures forall j :: 0 <= j ==> !OccursAt("*" + x + "*", "**", j)
  {
    var s := "*" + x + "*";
    forall j | 0 <= j ensures !OccursAt(s, "**", j) {
      if 0 < j < |s| - 1 {
        assert s[j] == x[j - 1];
      } else if j == 0 {
        assert s[1] == x[0];
      }
      assert j + 2 <= |s| ==> s[j..j + 2][0] == s[j] && s[j..j + 2][1] == s[j + 1];
    }
  }

  lemma BoldRemoved(x: string)
    requires x != [] && NoChar(x, '*') && NoChar(x, '`')
    ensures StripMarkup("**" + x + "**") == x
  {
    NoCharNoDelimiter(x, "*");
    NoCharNoDelimiter(x, "`");
    StripPairsDelimited(x, "**");
    StripPairsNoDelimiter(x, "*");
    StripPairsNoDelimiter(x, "`");
  }

  lemma ItalicRemoved(x: string)
    requires x != [] && NoChar(x, '*') && NoChar(x, '`')
    ensures StripMarkup("*" + x + "*") == x
  {
    NoCharNoDelimiter(x, "`");
    StripPairsDelimited(x, "*");
    StripPairsNoDelimiter(x, "`");
    ItalicHasNoBold(x);
    StripPairsNoDelimiter("*" + x + "*", "**");
  }

  lemma CodeRemoved(x: string)
    requires x != [] && NoChar(x, '*') && NoChar(x, '`')
    ensures StripMarkup("`" + x + "`") == x
  {
    StripPairsDelimited(x, "`");
    NoCharNoDelimiter("`" + x + "`", "**");
    StripPairsNoDelimiter("`" + x + "`", "**");
    NoCharNoDelimiter("`" + x + "`", "*");
    StripPairsNoDelimiter("`" + x + "`", "*");
  }

  /** Bold, italic and code words are shown without their markup. */
  lemma MarkupRemoved(x: string)
    requires x != [] && NoChar(x, '*') && NoChar(x, '`')
    ensures StripMarkup("**" + x + "**") == x
    ensures StripMarkup("*" + x + "*") == x
    ensures StripMarkup("`" + x + "`") == x
  {
    BoldRemoved(x);
    ItalicRemoved(x);
    CodeRemoved(x);
  }

  // ------------------------------------------------------------------
  // The line loop
  // ------------------------------------------------------------------

  /** What the loop puts on the page. A code block is emitted as a whole at
      its closing fence; `RuleSpace` is the vertical space a "---" line
      adds. */
  datatype Block =
    | CodeBlock(lines: seq<string>)
    | Heading(level: nat, text: string)
    | TableRow(cells: seq<string>)
    | Bullet(text: string)
    | RuleSpace
    | Paragraph(text: string)

  const MaxCellWidth: nat := 30

  predicate IsFence(line: string)
  {
    StartsWith(line, "```")
  }

  /** `[c.strip() for c in parts]` */
  function StripEach(parts: seq<string>): (cells: seq<string>)
    ensures |cells| == |parts|
    ensures forall i :: 0 <= i < |parts| ==> cells[i] == Strip(parts[i])
  {
    seq(|parts|, i requires 0 <= i < |parts| => Strip(parts[i]))
  }

  /** `parts[1:-1]` */
  function Interior(parts: seq<string>): (inner: seq<string>)
    ensures |parts| < 2 ==> inner == []
    ensures |parts| >= 2 ==> inner == parts[1..|parts| - 1]
  {
    if |parts| < 2 then [] else parts[1..|parts| - 1]
  }

  /** The cells of a table line: the stripped texts between consecutive
      pipes; the text before the first pipe and after the last one is
      dropped. */
  function TableCells(line: string): seq<string>
  {
    StripEach(Interior(Split(line, '|')))
  }

  /** A cell of a separator row: nothing left once dashes and white space are
      removed. */
  predicate IsSeparatorCell(cell: string)
  {
    Strip(RemoveChar(cell, '-')) == ""
  }

  predicate HasContent(cells: seq<string>)
  {
    exists i :: 0 <= i < |cells| && !IsSeparatorCell(cells[i])
  }

  /** `cell[:30]` */
  function Truncate(cell: string): (r: string)
    ensures |r| <= MaxCellWidth && StartsWith(cell, r)
    ensures |cell| <= MaxCellWidth ==> r == cell
  {
    if |cell| <= MaxCellWidth then cell else cell[..MaxCellWidth]
  }

  function TruncateAll(cells: seq<string>): (r: seq<string>)
    ensures |r| == |cells| && forall i :: 0 <= i < |cells| ==> r[i] == Truncate(cells[i])
  {
    seq(|cells|, i requires 0 <= i < |cells| => Truncate(cells[i]))
  }

  /** A table line: a row of truncated cells, unless it has no cells or only
      separator cells. */
  function TableLine(line: string): (b: Option<Block>)
    ensures b.Some? <==> HasContent(TableCells(line))
    ensures b.Some? ==> b.value == TableRow(TruncateAll(TableCells(line)))
  {
    var cells := TableCells(line);
    if HasContent(cells) then Some(TableRow(TruncateAll(cells))) else None
  }

  /** What a line outside a code block produces, tested in the loop's order:
      headings "# " to "#### ", a table line, a bullet, a rule, then any line
      with text as a paragraph. */
  function Classify(line: string): Option<Block>
  {
    if StartsWith(line, "# ") then Some(Heading(1, line[2..]))
    else if StartsWith(line, "## ") then Some(Heading(2, line[3..]))
    else if StartsWith(line, "### ") then Some(Heading(3, line[4..]))
    else if StartsWith(line, "#### ") then Some(Heading(4, line[5..]))
    else if StartsWith(line, "|") then TableLine(line)
    else if StartsWith(line, "- ") || StartsWith(line, "* ") then Some(Bullet("  * " + line[2..]))
    else if StartsWith(line, "---") then Some(RuleSpace)
    else if Strip(line) != "" then Some(Paragraph(StripMarkup(line)))
    else None
  }

  /** The loop's state: what was emitted, whether a fence is open, and the
      code lines buffered since it opened. */
  datatype Render = Render(blocks: seq<Block>, inCode: bool, buffer: seq<string>)

  const Start: Render := Render([], false, [])

  /** Outside a code block nothing is buffered. */
  predicate Settled(r: Render)
  {
    !r.inCode ==> r.buffer == []
  }

  /** One iteration of the loop. */
  function Step(r: Render, line: string): (r': Render)
    ensures Settled(r) ==> Settled(r')
    ensures |r.blocks| <= |r'.blocks| && r'.blocks[..|r.blocks|] == r.blocks
  {
    if IsFence(line) then
      if r.inCode then Render(r.blocks + [CodeBlock(r.buffer)], false, [])
      else r.(inCode := true)
    else if r.inCode then r.(buffer := r.buffer + [line])
    else match Classify(line)
      case Some(b) => r.(blocks := r.blocks + [b])
      case None => r
  }

  /** The loop over the lines, from a given state. */
  function RunFrom(r: Render, lines: seq<string>): (r': Render)
    ensures Settled(r) ==> Settled(r')
    ensures |r.blocks| <= |r'.blocks| && r'.blocks[..|r.blocks|] == r.blocks
    decreases |lines|
  {
    if lines == [] then r else RunFrom(Step(r, lines[0]), lines[1..])
  }

  lemma {:induction false} RunFromAppend(r: Render, a: seq<string>, b: seq<string>)
    ensures RunFrom(r, a + b) == RunFrom(RunFrom(r, a), b)
    decreases |a|
  {
    if a == [] {
      assert a + b == b;
    } else {
      assert (a + b)[0] == a[0] && (a + b)[1..] == a[1..] + b;
      RunFromAppend(Step(r, a[0]), a[1..], b);
    }
  }

  /** Inside an open block, lines without a fence are only buffered. */
  lemma {:induction false} RunInCode(blocks: seq<Block>, buffer: seq<string>, body: seq<string>)
    requires forall i :: 0 <= i < |body| ==> !IsFence(body[i])
    ensures RunFrom(Render(blocks, true, buffer), body) == Render(blocks, true, buffer + body)
    decreases |body|
  {
    if body == [] {
      assert buffer + body == buffer;
    } else {
      RunInCode(blocks, buffer + [body[0]], body[1..]);
      assert buffer + [body[0]] + body[1..] == buffer + body;
    }
  }

  /** A fenced block is emitted once, at its closing fence, holding exactly
      the lines between the fences, verbatim and in order; the fence lines
      themselves are never emitted, and afterwards the loop is outside a code
      block again. */
  lemma CodeBlockVerbatim(r: Render, open: string, body: seq<string>, close: string)
    requires !r.inCode && r.buffer == []
    requires IsFence(open) && IsFence(close)
    requires forall i :: 0 <= i < |body| ==> !IsFence(body[i])
    ensures RunFrom(r, [open] + body + [close]) == Render(r.blocks + [CodeBlock(body)], false, [])
  {
    RunFromAppend(r, [open], body + [close]);
    assert [open] + body + [close] == [open] + (body + [close]);
    assert RunFrom(r, [open]) == Render(r.blocks, true, []);
    RunFromAppend(Render(r.blocks, true, []), body, [close]);
    RunInCode(r.blocks, [], body);
    assert [] + body == body;
  }

  /** A block whose closing fence never comes adds nothing to the output:
      the buffered lines are dropped when the input ends. */
  lemma UnterminatedBlockDropped(r: Render, open: string, body: seq<string>)
    requires !r.inCode && r.buffer == []
    requires IsFence(open)
    requires forall i :: 0 <= i < |body| ==> !IsFence(body[i])
    ensures RunFrom(r, [open] + body).blocks == r.blocks
    ensures RunFrom(r, [open] + body).inCode
  {
    RunFromAppend(r, [open], body);
    assert RunFrom(r, [open]) == Render(r.blocks, true, []);
    RunInCode(r.blocks, [], body);
  }

  /** The loop over the lines of the cleaned text. */
  method RenderLines(lines: seq<string>) returns (blocks: seq<Block>)
    ensures blocks == RunFrom(Start, lines).blocks
  {
    var inCode := false;
    var buffer: seq<string> := [];
    blocks := [];
    for k := 0 to |lines|
      invariant RunFrom(Render(blocks, inCode, buffer), lines[k..]) == RunFrom(Start, lines)
    {
      var line := lines[k];
      assert lines[k..] == [line] + lines[k + 1..];
      if StartsWith(line, "```") {
        if inCode {
          blocks := blocks + [CodeBlock(buffer)];
          buffer := [];
          inCode := false;
        } else {
          inCode := true;
        }
        continue;
      }
      if inCode {
        buffer := buffer + [line];
        continue;
      }
      var b := Classify(line);
      if b.Some? {
        blocks := blocks + [b.value];
      }
    }
    assert lines[|lines|..] == [];
  }

  /** The whole conversion: clean the text, split it into lines, run the
      loop. */
  method Convert(content: string) returns (blocks: seq<Block>)
    ensures blocks == RunFrom(Start, Split(Clean(content), '\n')).blocks
  {
    var cleaned := CleanText(content);
    var lines := Split(cleaned, '\n');
    blocks := RenderLines(lines);
  }

  /** A line differing from `p` at position i does not start with `p`. */
  lemma NotPrefixAt(s: string, p: string, i: nat)
    requires i < |p| && (i >= |s| || s[i] != p[i])
    ensures !StartsWith(s, p)
  {
  }

  /** Headings are recognised from one to four hashes, with the prefix
      removed; five hashes make an ordinary paragraph. */
  lemma HeadingLevels(t: string)
    ensures Classify("# " + t) == Some(Heading(1, t))
    ensures Classify("## " + t) == Some(Heading(2, t))
    ensures Classify("### " + t) == Some(Heading(3, t))
    ensures Classify("#### " + t) == Some(Heading(4, t))
    ensures Classify("##### " + t) == Some(Paragraph(StripMarkup("##### " + t)))
  {
    var h1, h2, h3, h4, h5 := "# " + t, "## " + t, "### " + t, "#### " + t, "##### " + t;
    assert h1[..2] == "# " && h1[2..] == t;
    NotPrefixAt(h2, "# ", 1);
    assert h2[..3] == "## " && h2[3..] == t;
    NotPrefixAt(h3, "# ", 1);
    NotPrefixAt(h3, "## ", 2);
    assert h3[..4] == "### " && h3[4..] == t;
    NotPrefixAt(h4, "# ", 1);
    NotPrefixAt(h4, "## ", 2);
    NotPrefixAt(h4, "### ", 3);
    assert h4[..5] == "#### " && h4[5..] == t;
    NotPrefixAt(h5, "# ", 1);
    NotPrefixAt(h5, "## ", 2);
    NotPrefixAt(h5, "### ", 3);
    NotPrefixAt(h5, "#### ", 4);
    NotPrefixAt(h5, "|", 0);
    NotPrefixAt(h5, "- ", 0);
    NotPrefixAt(h5, "* ", 0);
    NotPrefixAt(h5, "---", 0);
    assert Strip(h5) != "" by {
      assert !IsPySpace(h5[0]);
      assert LStrip(h5) == h5;
      assert RStrip(h5)[0] == '#';
    }
  }

  /** A bullet is indented and marked with "*", whichever marker it had. */
  lemma BulletLines(t: string)
    ensures Classify("- " + t) == Some(Bullet("  * " + t))
    ensures Classify("* " + t) == Some(Bullet("  * " + t))
  {
    var b := "- " + t;
    NotPrefixAt(b, "# ", 0);
    NotPrefixAt(b, "## ", 0);
    NotPrefixAt(b, "### ", 0);
    NotPrefixAt(b, "#### ", 0);
    NotPrefixAt(b, "|", 0);
    assert b[..2] == "- " && b[2..] == t;
    var s := "* " + t;
    NotPrefixAt(s, "# ", 0);
    NotPrefixAt(s, "## ", 0);
    NotPrefixAt(s, "### ", 0);
    NotPrefixAt(s, "#### ", 0);
    NotPrefixAt(s, "|", 0);
    assert s[..2] == "* " && s[2..] == t;
  }

  /** A horizontal rule only adds space, and a blank line adds nothing. */
  lemma RuleAndBlankLines(t: string, blank: string)
    requires forall i :: 0 <= i < |blank| ==> IsPySpace(blank[i])
    ensures Classify("---" + t) == Some(RuleSpace)
    ensures Classify(blank) == None
  {
    var r := "---" + t;
    NotPrefixAt(r, "# ", 0);
    NotPrefixAt(r, "## ", 0);
    NotPrefixAt(r, "### ", 0);
    NotPrefixAt(r, "#### ", 0);
    NotPrefixAt(r, "|", 0);
    NotPrefixAt(r, "- ", 1);
    NotPrefixAt(r, "* ", 0);
    assert r[..3] == "---";
    if blank != [] {
      assert IsPySpace(blank[0]);
      NotPrefixAt(blank, "# ", 0);
      NotPrefixAt(blank, "## ", 0);
      NotPrefixAt(blank, "### ", 0);
      NotPrefixAt(blank, "#### ", 0);
      NotPrefixAt(blank, "|", 0);
      NotPrefixAt(blank, "- ", 0);
      NotPrefixAt(blank, "* ", 0);
      NotPrefixAt(blank, "---", 0);
      assert LStrip(blank) == [];
    }
  }

  /** A row built from split parts: one cell per interior part, each the
      start of the stripped part and at most 30 characters long; a part that
      fits is shown whole. */
  lemma RowFromParts(parts: seq<string>)
    requires HasContent(StripEach(Interior(parts)))
    ensures var row := TruncateAll(StripEach(Interior(parts)));
      && |parts| >= 3
      && |row| == |parts| - 2
      && forall i :: 0 <= i < |row| ==>
           && |row[i]| <= MaxCellWidth
           && StartsWith(Strip(parts[i + 1]), row[i])
           && (|Strip(parts[i + 1])| <= MaxCellWidth ==> row[i] == Strip(parts[i + 1]))
  {
    var inner := Interior(parts);
    var cells := StripEach(inner);
    var row := TruncateAll(cells);
    assert |cells| > 0;
    forall i | 0 <= i < |row|
      ensures && |row[i]| <= MaxCellWidth
              && StartsWith(Strip(parts[i + 1]), row[i])
              && (|Strip(parts[i + 1])| <= MaxCellWidth ==> row[i] == Strip(parts[i + 1]))
    {
      assert inner[i] == parts[i + 1];
      var cell := cells[i];
      assert cell == Strip(parts[i + 1]);
      assert row[i] == Truncate(cell);
    }
  }

  /** A table line that is shown has one cell per gap between pipes, taken
      from the split line as above. */
  lemma TableRowCells(line: string)
    requires TableLine(line).Some?
    ensures var row := TableLine(line).value.cells;
      && |Split(line, '|')| >= 3
      && |row| == |Split(line, '|')| - 2
      && forall i :: 0 <= i < |row| ==>
           && |row[i]| <= MaxCellWidth
           && StartsWith(Strip(Split(line, '|')[i + 1]), row[i])
  {
    RowFromParts(Split(line, '|'));
  }

  /** The cells of a Markdown separator row: dashes are separator cells. */
  lemma DashesAreSeparator()
    ensures '|' !in "---" && Strip("---") == "---" && IsSeparatorCell("---")
  {
    assert LStrip("---") == "---" && RStrip("---") == "---";
    assert "---"[1..] == "--" && "--"[1..] == "-" && "-"[1..] == "";
    assert RemoveChar("---", '-') == [];
  }

  predicate PipeFree(cells: seq<string>)
  {
    forall i :: 0 <= i < |cells| ==> '|' !in cells[i]
  }

  /** A row with a pipe before, between and after its cells, such as
      "|a|b|". */
  function ClosedRow(cells: seq<string>): string
  {
    Join([""] + cells + [""], '|')
  }

  /** A row without its closing pipe, such as "|a|b". */
  function OpenRow(cells: seq<string>): string
  {
    Join([""] + cells, '|')
  }

  /** A closed row's cells are exactly its stripped cells. */
  lemma ClosedRowCells(cells: seq<string>)
    requires PipeFree(cells)
    ensures TableCells(ClosedRow(cells)) == StripEach(cells)
  {
    var parts := [""] + cells + [""];
    forall k | 0 <= k < |parts| ensures '|' !in parts[k] {
      if 0 < k < |parts| - 1 {
        assert parts[k] == cells[k - 1];
      }
    }
    JoinSplit(parts, '|');
    assert Split(ClosedRow(cells), '|') == parts;
    assert parts[1..|parts| - 1] == cells;
  }

  /** A closed row shows nothing exactly when every one of its cells is a
      separator cell, as in "|---|---|". */
  lemma SeparatorRowHidden(cells: seq<string>)
    requires PipeFree(cells)
    ensures TableLine(ClosedRow(cells)) == None
            <==> forall i :: 0 <= i < |cells| ==> IsSeparatorCell(Strip(cells[i]))
  {
    ClosedRowCells(cells);
  }

  /** The cells of an open row: the stripped cells but the last. */
  lemma OpenRowCells(cells: seq<string>)
    requires |cells| >= 1 && PipeFree(cells)
    ensures TableCells(OpenRow(cells)) == StripEach(cells[..|cells| - 1])
  {
    var parts := [""] + cells;
    forall k | 0 <= k < |parts| ensures '|' !in parts[k] {
      if k > 0 {
        assert parts[k] == cells[k - 1];
      }
    }
    JoinSplit(parts, '|');
    assert Split(OpenRow(cells), '|') == parts;
    assert parts[1..|parts| - 1] == cells[..|cells| - 1];
  }

  /** A row without a closing pipe loses its last cell: it shows what the
      closed row without that cell shows, so "|a|b" shows a alone. */
  lemma OpenRowLosesLastCell(cells: seq<string>)
    requires |cells| >= 1 && PipeFree(cells)
    ensures TableLine(OpenRow(cells)) == TableLine(ClosedRow(cells[..|cells| - 1]))
  {
    OpenRowCells(cells);
    ClosedRowCells(cells[..|cells| - 1]);
  }
}
