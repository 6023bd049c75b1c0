/**
 * The handful of Python string built-ins the response parser relies on,
 * written out over `seq<char>`: `str.isspace`, `str.strip`, `str.lower`,
 * the substring test `needle in hay`, `str.split('\n')` and the
 * substitution `re.sub(r'^[-•*]\s*', '', line)`.
 */
module Text {

  /** The characters for which Python's `str.isspace()` holds; `\s` in a
      `str` regular expression matches exactly the same set. */
  predicate IsSpace(c: char) {
    ('\t' <= c <= '\r') || ('\U{1C}' <= c <= '\U{1F}') || c == ' '
    || c == '\U{85}' || c == '\U{A0}' || c == '\U{1680}'
    || ('\U{2000}' <= c <= '\U{200A}') || c == '\U{2028}' || c == '\U{2029}'
    || c == '\U{202F}' || c == '\U{205F}' || c == '\U{3000}'
  }

  predicate AllSpace(s: string) {
    forall i :: 0 <= i < |s| ==> IsSpace(s[i])
  }

  // ---------------------------------------------------------------- strip

  /** `s.lstrip()`: drops the longest all-whitespace prefix. */
  function TrimStart(s: string): (r: string)
    ensures |r| <= |s| && r == s[|s| - |r|..]
    ensures forall i :: 0 <= i < |s| - |r| ==> IsSpace(s[i])
    ensures r != [] ==> !IsSpace(r[0])
  {
    if s != [] && IsSpace(s[0]) then TrimStart(s[1..]) else s
  }

  /** `s.rstrip()`: drops the longest all-whitespace suffix. */
  function TrimEnd(s: string): (r: string)
    ensures |r| <= |s| && r == s[..|r|]
    ensures forall i :: |r| <= i < |s| ==> IsSpace(s[i])
    ensures r != [] ==> !IsSpace(r[|r| - 1])
  {
    if s != [] && IsSpace(s[|s| - 1]) then TrimEnd(s[..|s| - 1]) else s
  }

  /** `s.strip()`: the part of `s` between its leading and trailing
      whitespace runs; empty exactly when `s` is blank. */
  function Strip(s: string): (r: string)
    ensures r == [] <==> AllSpace(s)
    ensures r != [] ==> !IsSpace(r[0]) && !IsSpace(r[|r| - 1])
  {
    TrimBothBlank(s);
    TrimEnd(TrimStart(s))
  }

  lemma TrimBothBlank(s: string)
    ensures TrimEnd(TrimStart(s)) == [] <==> AllSpace(s)
  {
    var t := TrimStart(s);
    var a := |s| - |t|;
    assert t == s[a..];
    if TrimEnd(t) == [] {
      forall i | 0 <= i < |s| ensures IsSpace(s[i]) {
        if i >= a { assert s[i] == t[i - a]; }
      }
    }
  }

  /** A string with no whitespace at either end is its own strip. */
  lemma StripUnchanged(s: string)
    requires s != [] && !IsSpace(s[0]) && !IsSpace(s[|s| - 1])
    ensures Strip(s) == s
  {
    assert TrimStart(s) == s;
  }

  // ---------------------------------------------------------------- lower

  /** Upper-case letters of the ASCII and Latin-1 ranges. */
  predicate IsUpper(c: char) {
    ('A' <= c <= 'Z') || ('\U{C0}' <= c <= '\U{DE}' && c != '\U{D7}')
  }

  /** Lower-case letters of the ASCII and Latin-1 ranges that have an
      upper-case partner in the same ranges. */
  predicate IsLower(c: char) {
    ('a' <= c <= 'z') || ('\U{E0}' <= c <= '\U{FE}' && c != '\U{F7}')
  }

  /** `c.upper()` on the letters `IsLower` covers; anything else is kept. */
  function UpperChar(c: char): (d: char)
    ensures IsLower(c) ==> IsUpper(d)
    ensures !IsLower(c) ==> d == c
  {
    if IsLower(c) then (c as int - 32) as char else c
  }

  /** `c.lower()` on the ASCII and Latin-1 ranges: a capital becomes the
      small letter whose capital it is, anything else is kept. */
  function LowerChar(c: char): (d: char)
    ensures !IsUpper(d)
    ensures IsUpper(c) ==> IsLower(d) && UpperChar(d) == c
    ensures !IsUpper(c) ==> d == c
    ensures IsSpace(d) <==> IsSpace(c)
  {
    if IsUpper(c) then (c as int + 32) as char else c
  }

  /** `s.lower()`: a character-by-character map, so it keeps the length and
      lower-cases each position on its own. */
  function Lower(s: string): (r: string)
    ensures |r| == |s|
    ensures forall i {:trigger LowerChar(s[i])} :: 0 <= i < |s| ==> r[i] == LowerChar(s[i])
  {
    seq(|s|, i requires 0 <= i < |s| => LowerChar(s[i]))
  }

  /** Lower-casing a string twice changes nothing more. */
  lemma LowerIdempotent(s: string)
    ensures Lower(Lower(s)) == Lower(s)
  {
    forall i | 0 <= i < |s| ensures Lower(Lower(s))[i] == Lower(s)[i] {
      assert Lower(s)[i] == LowerChar(s[i]);
      assert Lower(Lower(s))[i] == LowerChar(Lower(s)[i]);
    }
  }

  /** Lower-casing commutes with slicing. */
  lemma LowerSlice(s: string, a: int, b: int)
    requires 0 <= a <= b <= |s|
    ensures Lower(s[a..b]) == Lower(s)[a..b]
  {
    forall i | 0 <= i < b - a ensures Lower(s[a..b])[i] == Lower(s)[a..b][i] {
      assert Lower(s[a..b])[i] == LowerChar(s[a..b][i]);
      assert Lower(s)[a + i] == LowerChar(s[a + i]);
    }
  }

  /** Lower-casing commutes with concatenation. */
  lemma LowerAppend(s: string, t: string)
    ensures Lower(s + t) == Lower(s) + Lower(t)
  {
    forall i | 0 <= i < |s + t| ensures Lower(s + t)[i] == (Lower(s) + Lower(t))[i] {
      assert Lower(s + t)[i] == LowerChar((s + t)[i]);
      if i < |s| {
        assert Lower(s)[i] == LowerChar(s[i]);
      } else {
        assert Lower(t)[i - |s|] == LowerChar(t[i - |s|]);
      }
    }
  }

  // ------------------------------------------------------------ substring

  /** `needle` occurs in `hay` starting at index `i`. */
  ghost predicate OccursAt(hay: string, needle: string, i: int) {
    0 <= i && i + |needle| <= |hay| && hay[i..i + |needle|] == needle
  }

  /** Python's `needle in hay` on strings. */
  function Contains(hay: string, needle: string): (r: bool)
    ensures r <==> exists i :: OccursAt(hay, needle, i)
  {
    if needle <= hay then
      assert OccursAt(hay, needle, 0);
      true
    else if hay == [] then
      false
    else
      var r := Contains(hay[1..], needle);
      if r then
        assert exists j :: OccursAt(hay, needle, j) by {
          var i :| OccursAt(hay[1..], needle, i);
          assert hay[1..][i..i + |needle|] == hay[i + 1..i + 1 + |needle|];
          assert OccursAt(hay, needle, i + 1);
        }
        r
      else
        assert forall i :: OccursAt(hay, needle, i) ==> OccursAt(hay[1..], needle, i - 1) by {
          forall i | OccursAt(hay, needle, i) ensures OccursAt(hay[1..], needle, i - 1) {
            assert i != 0;
            assert hay[1..][i - 1..i - 1 + |needle|] == hay[i..i + |needle|];
          }
        }
        r
  }

  /** A needle longer than the haystack never occurs in it. */
  lemma LongerNotContained(hay: string, needle: string)
    requires |needle| > |hay|
    ensures !Contains(hay, needle)
  {
  }

  /** Every string occurs at the start of any string it begins. */
  lemma PrefixContained(hay: string, needle: string)
    requires needle <= hay
    ensures Contains(hay, needle)
  {
    assert OccursAt(hay, needle, 0);
  }

  /** An exact occurrence survives lower-casing both strings. */
  lemma ContainsLower(hay: string, needle: string)
    requires Contains(hay, needle)
    ensures Contains(Lower(hay), Lower(needle))
  {
    var i :| OccursAt(hay, needle, i);
    LowerSlice(hay, i, i + |needle|);
    assert OccursAt(Lower(hay), Lower(needle), i);
  }

  // ---------------------------------------------------------------- split

  /** `s.split('\n')`: never empty, and no piece holds a newline. */
  function SplitLines(s: string): (lines: seq<string>)
    ensures |lines| >= 1
    ensures forall k :: 0 <= k < |lines| ==> '\n' !in lines[k]
  {
    if s == [] then
      [[]]
    else
      var rest := SplitLines(s[1..]);
      if s[0] == '\n' then [[]] + rest
      else [[s[0]] + rest[0]] + rest[1..]
  }

  /** Joining the pieces back with newlines gives the original text. */
  lemma {:induction false} JoinSplit(s: string)
    ensures JoinLines(SplitLines(s)) == s
  {
    if s != [] {
      var rest := SplitLines(s[1..]);
      JoinSplit(s[1..]);
      if s[0] == '\n' {
        assert JoinLines([[]] + rest) == "\n" + JoinLines(rest);
      } else {
        var lines := [[s[0]] + rest[0]] + rest[1..];
        assert JoinLines(lines) == [s[0]] + JoinLines(rest) by {
          if |rest| > 1 {
            assert lines[1..] == rest[1..];
            assert JoinLines(lines) == lines[0] + "\n" + JoinLines(rest[1..]);
            assert JoinLines(rest) == rest[0] + "\n" + JoinLines(rest[1..]);
          }
        }
      }
    }
  }

  /** `'\n'.join(lines)`. */
  function JoinLines(lines: seq<string>): string {
    if lines == [] then []
    else if |lines| == 1 then lines[0]
    else lines[0] + "\n" + JoinLines(lines[1..])
  }

  /** Splitting undoes joining when no piece holds a newline: together with
      `JoinSplit`, the two are inverse bijections. */
  lemma {:induction false} SplitJoin(lines: seq<string>)
    requires |lines| >= 1
    requires forall k :: 0 <= k < |lines| ==> '\n' !in lines[k]
    ensures SplitLines(JoinLines(lines)) == lines
    decreases |JoinLines(lines)|, |lines|
  {
    if |lines| == 1 {
      SplitNoNewline(lines[0]);
    } else if lines[0] == [] {
      var s := JoinLines(lines);
      assert s == "\n" + JoinLines(lines[1..]);
      assert s[1..] == JoinLines(lines[1..]);
      SplitJoin(lines[1..]);
      assert lines == [[]] + lines[1..];
    } else {
      var s := JoinLines(lines);
      var shorter := [lines[0][1..]] + lines[1..];
      assert shorter[1..] == lines[1..];
      assert JoinLines(shorter) == lines[0][1..] + "\n" + JoinLines(lines[1..]);
      assert s == [lines[0][0]] + JoinLines(shorter);
      assert s[1..] == JoinLines(shorter);
      assert s[0] == lines[0][0];
      assert '\n' !in shorter[0] by {
        assert forall c :: c in shorter[0] ==> c in lines[0];
      }
      SplitJoin(shorter);
      assert [lines[0][0]] + lines[0][1..] == lines[0];
      assert lines == [[lines[0][0]] + shorter[0]] + shorter[1..];
    }
  }

  /** A line without a newline splits into itself. */
  lemma {:induction false} SplitNoNewline(s: string)
    requires '\n' !in s
    ensures SplitLines(s) == [s]
  {
    if s != [] {
      assert '\n' !in s[1..] by {
        assert forall c :: c in s[1..] ==> c in s;
      }
      SplitNoNewline(s[1..]);
      assert [s[0]] + s[1..] == s;
    }
  }

  // --------------------------------------------------------------- marker

  /** The three bullet markers `-`, `•` and `*`. */
  predicate IsMarker(c: char) {
    c == '-' || c == '•' || c == '*'
  }

  /** `re.sub(r'^[-•*]\s*', '', s)`: one leading marker and the whitespace
      run after it are removed; anything else is left alone. */
  function StripMarker(s: string): (r: string)
    ensures s != [] && IsMarker(s[0]) ==>
              |r| < |s| && r == s[|s| - |r|..]
              && (forall i :: 1 <= i < |s| - |r| ==> IsSpace(s[i]))
              && (r != [] ==> !IsSpace(r[0]))
    ensures !(s != [] && IsMarker(s[0])) ==> r == s
  {
    if s != [] && IsMarker(s[0]) then TrimStart(s[1..]) else s
  }
}
