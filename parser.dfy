/**
 * The response parser: a line-by-line state machine that turns the language
 * model's free-form answer into an ordered list of header and content
 * items. The state is the section currently open (none at first); every
 * non-blank line either opens a section (and yields one header item naming
 * it), or, inside a section, yields one content item with a leading bullet
 * marker removed, or is dropped.
 *
 * `Step` is one transition and `Fold` runs it over the lines from left to
 * right; `FormatContent` is the loop itself, proved to compute `Parse`.
 */
module Parser {
  import opened Common
  import opened Text
  import opened Config

  datatype ItemKind = Header | Content

  /** One entry of the formatted content: `{"type": ..., "text": ...}`. */
  datatype Item = Item(kind: ItemKind, text: string)

  /** The loop's variables between two lines: the open section and the
      items emitted so far. */
  datatype ParserState = ParserState(current: Option<string>, items: seq<Item>)

  const Start := ParserState(None, [])

  /** Python truthiness of the open section: set and not the empty string. */
  predicate Active(current: Option<string>) {
    current.Some? && current.value != []
  }

  /** A stripped line names a section: the lower-cased name occurs in the
      lower-cased line, or, for Arabic, the name occurs in the line as is. */
  predicate Matches(section: string, language: string, line: string) {
    Contains(Lower(line), Lower(section)) || (IsArabic(language) && Contains(line, section))
  }

  /** The index of the first section, in declaration order, that `line`
      names; `None` when it names none. */
  function FirstMatch(sections: seq<string>, language: string, line: string): (r: Option<nat>)
    ensures r.Some? ==> r.value < |sections| && Matches(sections[r.value], language, line)
    ensures r.Some? ==> forall j :: 0 <= j < r.value ==> !Matches(sections[j], language, line)
    ensures r.None? ==> forall j :: 0 <= j < |sections| ==> !Matches(sections[j], language, line)
  {
    FirstMatchFrom(sections, language, line, 0)
  }

  function FirstMatchFrom(sections: seq<string>, language: string, line: string, from: nat): (r: Option<nat>)
    requires from <= |sections|
    ensures r.Some? ==> from <= r.value < |sections| && Matches(sections[r.value], language, line)
    ensures r.Some? ==> forall j :: from <= j < r.value ==> !Matches(sections[j], language, line)
    ensures r.None? ==> forall j :: from <= j < |sections| ==> !Matches(sections[j], language, line)
    decreases |sections| - from
  {
    if from == |sections| then None
    else if Matches(sections[from], language, line) then Some(from)
    else FirstMatchFrom(sections, language, line, from + 1)
  }

  /** A raw line that, once stripped, is non-blank and names a section. */
  predicate IsHeaderLine(sections: seq<string>, language: string, raw: string) {
    Strip(raw) != [] && FirstMatch(sections, language, Strip(raw)).Some?
  }

  /** One turn of the loop on one raw line. */
  function Step(sections: seq<string>, language: string, st: ParserState, raw: string): ParserState {
    var line := Strip(raw);
    if line == [] then st
    else match FirstMatch(sections, language, line)
      case Some(k) => ParserState(Some(sections[k]), st.items + [Item(Header, sections[k])])
      case None =>
        var cleaned := StripMarker(line);
        if Active(st.current) && cleaned != [] then st.(items := st.items + [Item(Content, cleaned)])
        else st
  }

  /** The loop run over `lines` from state `st`, first line first. */
  function Fold(sections: seq<string>, language: string, st: ParserState, lines: seq<string>): ParserState
    decreases |lines|
  {
    if lines == [] then st
    else Step(sections, language, Fold(sections, language, st, lines[..|lines| - 1]), lines[|lines| - 1])
  }

  /** The items the parser produces for a whole response text. */
  function Parse(sections: seq<string>, language: string, text: string): seq<Item> {
    Fold(sections, language, Start, SplitLines(text)).items
  }

  /**
   * The parsing loop of the response formatter: splits the text at
   * newlines and runs the state machine over the lines in order.
   */
  method FormatContent(sections: seq<string>, text: string, language: string) returns (items: seq<Item>)
    ensures items == Parse(sections, language, text)
  {
    var lines := SplitLines(text);
    items := FormatLines(sections, language, lines);
  }

  /** The loop itself: the state machine run over the lines in order. */
  method FormatLines(sections: seq<string>, language: string, lines: seq<string>) returns (items: seq<Item>)
    ensures items == Fold(sections, language, Start, lines).items
  {
    items := [];
    var current: Option<string> := None;
    var i := 0;
    while i < |lines|
      invariant 0 <= i <= |lines|
      invariant ParserState(current, items) == Fold(sections, language, Start, lines[..i])
    {
      ghost var before := ParserState(current, items);
      current, items := FormatLine(sections, language, current, items, lines[i]);
      FoldNext(sections, language, lines, i);
      assert ParserState(current, items) == Step(sections, language, before, lines[i]);
      i := i + 1;
    }
    assert lines[..i] == lines;
  }

  /**
   * One turn of the parsing loop: strips the line, skips it when blank,
   * tries the sections in declaration order and stops at the first one
   * the line names (emitting its header and opening it); otherwise, inside
   * a section, emits the line without its bullet marker unless nothing is
   * left of it.
   */
  method FormatLine(sections: seq<string>, language: string, current0: Option<string>, items0: seq<Item>, raw: string)
    returns (current: Option<string>, items: seq<Item>)
    ensures ParserState(current, items) == Step(sections, language, ParserState(current0, items0), raw)
  {
    current, items := current0, items0;
    var line := Strip(raw);
    if line != [] {
      var isHeader := false;
      var j := 0;
      while j < |sections|
        invariant 0 <= j <= |sections|
        invariant forall k :: 0 <= k < j ==> !Matches(sections[k], language, line)
        invariant !isHeader && current == current0 && items == items0
      {
        if Matches(sections[j], language, line) {
          current := Some(sections[j]);
          items := items + [Item(Header, sections[j])];
          isHeader := true;
          break;
        }
        j := j + 1;
      }
      if !isHeader {
        FirstMatchNone(sections, language, line);
        if Active(current) {
          var cleaned := StripMarker(line);
          if cleaned != [] {
            items := items + [Item(Content, cleaned)];
          }
        }
      } else {
        FirstMatchAt(sections, language, line, j);
      }
    }
  }

  /** The index where the search stopped is the first match. */
  lemma FirstMatchAt(sections: seq<string>, language: string, line: string, j: nat)
    requires j < |sections| && Matches(sections[j], language, line)
    requires forall k :: 0 <= k < j ==> !Matches(sections[k], language, line)
    ensures FirstMatch(sections, language, line) == Some(j)
  {
  }

  /** A search that ran to the end found nothing. */
  lemma FirstMatchNone(sections: seq<string>, language: string, line: string)
    requires forall k :: 0 <= k < |sections| ==> !Matches(sections[k], language, line)
    ensures FirstMatch(sections, language, line).None?
  {
  }

  // ------------------------------------------------------------ properties

  /** The loop over one more line is one more step. */
  lemma FoldNext(sections: seq<string>, language: string, lines: seq<string>, i: nat)
    requires i < |lines|
    ensures Fold(sections, language, Start, lines[..i + 1])
         == Step(sections, language, Fold(sections, language, Start, lines[..i]), lines[i])
  {
    assert lines[..i + 1][..i] == lines[..i];
  }

  /** Running the loop over two blocks of lines is running it over the first
      and then over the second from where the first stopped. */
  lemma {:induction false} FoldAppend(sections: seq<string>, language: string, st: ParserState, a: seq<string>, b: seq<string>)
    ensures Fold(sections, language, st, a + b) == Fold(sections, language, Fold(sections, language, st, a), b)
    decreases |b|
  {
    if b == [] {
      assert a + b == a;
    } else {
      assert (a + b)[..|a + b| - 1] == a + b[..|b| - 1];
      FoldAppend(sections, language, st, a, b[..|b| - 1]);
    }
  }

  /** The number of lines that are not blank once stripped. */
  function NonBlankCount(lines: seq<string>): nat {
    if lines == [] then 0
    else NonBlankCount(lines[..|lines| - 1]) + (if Strip(lines[|lines| - 1]) == [] then 0 else 1)
  }

  /** Items are only ever appended, in line order, and each non-blank line
      adds at most one: blank lines add none. */
  lemma {:induction false} FoldOutput(sections: seq<string>, language: string, st: ParserState, lines: seq<string>)
    ensures st.items <= Fold(sections, language, st, lines).items
    ensures |Fold(sections, language, st, lines).items| <= |st.items| + NonBlankCount(lines)
    decreases |lines|
  {
    if lines != [] {
      FoldOutput(sections, language, st, lines[..|lines| - 1]);
    }
  }

  /** At most one item per non-blank line of the response. */
  lemma ParseCount(sections: seq<string>, language: string, text: string)
    ensures |Parse(sections, language, text)| <= NonBlankCount(SplitLines(text))
  {
    FoldOutput(sections, language, Start, SplitLines(text));
  }

  /** The most recent header among `items`, if any. */
  function LastHeader(items: seq<Item>): Option<string> {
    if items == [] then None
    else if items[|items| - 1].kind == Header then Some(items[|items| - 1].text)
    else LastHeader(items[..|items| - 1])
  }

  /** The invariant the loop keeps: every header names a configured section,
      every content item is non-empty with no whitespace at either end, the
      first item is a header, and the open section is the last header
      emitted (none before the first). */
  ghost predicate Consistent(sections: seq<string>, st: ParserState) {
    && (forall k :: 0 <= k < |st.items| && st.items[k].kind == Header ==> st.items[k].text in sections)
    && (forall k :: 0 <= k < |st.items| && st.items[k].kind == Content ==>
          var t := st.items[k].text; t != [] && !IsSpace(t[0]) && !IsSpace(t[|t| - 1]))
    && (st.items != [] ==> st.items[0].kind == Header)
    && st.current == LastHeader(st.items)
  }

  /** A content item's text is the stripped line with at most one marker and
      the whitespace after it removed; it keeps no whitespace at either end. */
  lemma CleanedTrimmed(line: string)
    requires Strip(line) == line && line != []
    requires StripMarker(line) != []
    ensures var t := StripMarker(line); !IsSpace(t[0]) && !IsSpace(t[|t| - 1])
  {
    var t := StripMarker(line);
    assert t[|t| - 1] == line[|line| - 1];
  }

  /** Opening a configured section keeps the invariant. */
  lemma AddHeaderConsistent(sections: seq<string>, st: ParserState, k: nat)
    requires Consistent(sections, st) && k < |sections|
    ensures Consistent(sections, ParserState(Some(sections[k]), st.items + [Item(Header, sections[k])]))
  {
  }

  /** Adding a trimmed, non-empty content item inside a section keeps the
      invariant. */
  lemma AddContentConsistent(sections: seq<string>, st: ParserState, t: string)
    requires Consistent(sections, st) && Active(st.current)
    requires t != [] && !IsSpace(t[0]) && !IsSpace(t[|t| - 1])
    ensures Consistent(sections, st.(items := st.items + [Item(Content, t)]))
  {
    var items' := st.items + [Item(Content, t)];
    assert items'[..|items'| - 1] == st.items;
  }

  /** One step keeps the invariant. */
  lemma StepConsistent(sections: seq<string>, language: string, st: ParserState, raw: string)
    requires Consistent(sections, st)
    ensures Consistent(sections, Step(sections, language, st, raw))
  {
    var next := Step(sections, language, st, raw);
    var line := Strip(raw);
    if line == [] {
      assert next == st;
    } else {
      match FirstMatch(sections, language, line)
      case Some(k) =>
        assert next == ParserState(Some(sections[k]), st.items + [Item(Header, sections[k])]);
        AddHeaderConsistent(sections, st, k);
      case None =>
        var cleaned := StripMarker(line);
        if Active(st.current) && cleaned != [] {
          assert next == st.(items := st.items + [Item(Content, cleaned)]);
          StripUnchanged(line);
          CleanedTrimmed(line);
          AddContentConsistent(sections, st, cleaned);
        } else {
          assert next == st;
        }
    }
  }

  /** The invariant holds after any number of lines. */
  lemma {:induction false} FoldConsistent(sections: seq<string>, language: string, st: ParserState, lines: seq<string>)
    requires Consistent(sections, st)
    ensures Consistent(sections, Fold(sections, language, st, lines))
    decreases |lines|
  {
    if lines != [] {
      FoldConsistent(sections, language, st, lines[..|lines| - 1]);
      StepConsistent(sections, language, Fold(sections, language, st, lines[..|lines| - 1]), lines[|lines| - 1]);
    }
  }

  /** Every parsed header is the canonical name of a configured section,
      every content item is non-empty and trimmed, and the items open with
      a header. */
  lemma ParseConsistent(sections: seq<string>, language: string, text: string)
    ensures Consistent(sections, Fold(sections, language, Start, SplitLines(text)))
  {
    FoldConsistent(sections, language, Start, SplitLines(text));
  }

  /** A line that names a section yields exactly one item, the header with
      the canonical name of the first section it names, and opens that
      section; the rest of the line is discarded. */
  lemma HeaderLine(sections: seq<string>, language: string, st: ParserState, lines: seq<string>, raw: string)
    requires IsHeaderLine(sections, language, raw)
    ensures var k := FirstMatch(sections, language, Strip(raw)).value;
      Fold(sections, language, st, lines + [raw])
        == ParserState(Some(sections[k]),
                       Fold(sections, language, st, lines).items + [Item(Header, sections[k])])
  {
    assert (lines + [raw])[..|lines + [raw]| - 1] == lines;
  }

  /** A non-blank line that names no section yields, inside a section, one
      content item with its marker removed, unless nothing is left of it;
      outside any section it yields nothing. The open section is unchanged. */
  lemma ContentLine(sections: seq<string>, language: string, st: ParserState, lines: seq<string>, raw: string)
    requires Strip(raw) != [] && !IsHeaderLine(sections, language, raw)
    ensures var before := Fold(sections, language, st, lines);
      var after := Fold(sections, language, st, lines + [raw]);
      var cleaned := StripMarker(Strip(raw));
      && after.current == before.current
      && after.items == if Active(before.current) && cleaned != [] then before.items + [Item(Content, cleaned)]
                        else before.items
  {
    assert (lines + [raw])[..|lines + [raw]| - 1] == lines;
  }

  /** A blank or whitespace-only line changes nothing. */
  lemma BlankLine(sections: seq<string>, language: string, st: ParserState, lines: seq<string>, raw: string)
    requires AllSpace(raw)
    ensures Fold(sections, language, st, lines + [raw]) == Fold(sections, language, st, lines)
  {
    assert (lines + [raw])[..|lines + [raw]| - 1] == lines;
  }

  /** Lines before the first header are dropped: a block of lines none of
      which names a section leaves the initial state untouched, so whatever
      follows it parses as if the block were absent. */
  lemma {:induction false} PreambleDropped(sections: seq<string>, language: string, preamble: seq<string>, rest: seq<string>)
    requires forall k :: 0 <= k < |preamble| ==> !IsHeaderLine(sections, language, preamble[k])
    ensures Fold(sections, language, Start, preamble) == Start
    ensures Fold(sections, language, Start, preamble + rest) == Fold(sections, language, Start, rest)
    decreases |preamble|
  {
    if preamble != [] {
      PreambleDropped(sections, language, preamble[..|preamble| - 1], []);
    }
    FoldAppend(sections, language, Start, preamble, rest);
  }

  /** The Arabic exact-substring test adds nothing: an exact occurrence is
      also an occurrence once both sides are lower-cased, so a name matches
      a line in every language exactly when its lower-cased form occurs in
      the lower-cased line. */
  lemma ArabicExactMatchSubsumed(section: string, language: string, line: string)
    ensures Matches(section, language, line) <==> Contains(Lower(line), Lower(section))
  {
    if Contains(line, section) {
      ContainsLower(line, section);
    }
  }

  /** A line that is exactly a configured section name, or that name
      followed by a colon as the instruction asks the model to write it, is
      recognised as that section and no earlier one. */
  lemma PromptHeaderRecognised(language: string, k: nat, raw: string)
    requires language in LanguageConfigs
    requires k < |LanguageConfigs[language].sections|
    requires var name := LanguageConfigs[language].sections[k];
      Strip(raw) == name || Strip(raw) == name + ":"
    ensures FirstMatch(LanguageConfigs[language].sections, language, Strip(raw)) == Some(k)
  {
    var sections := LanguageConfigs[language].sections;
    ConfigsWellFormed(language);
    var name := sections[k];
    var line := Strip(raw);
    assert name <= line;
    assert Lower(name) <= Lower(line) by {
      if line != name {
        LowerAppend(name, ":");
      }
    }
    PrefixContained(Lower(line), Lower(name));
    forall j | 0 <= j < k ensures !Matches(sections[j], language, line) {
      ArabicExactMatchSubsumed(sections[j], language, line);
      LongerNotContained(Lower(line), Lower(sections[j]));
    }
  }
}
