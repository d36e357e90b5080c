/** The lines that set_section_values reads and writes (experiment-manager/backend/app/config_generator.py), in
    literals: where a text is split, which lines hold a key, and what is written in their place. */
module SectionLines {
  import opened Options
  import opened PythonText
  import opened SectionEdit
  import opened SecretLines

  // ----- Lines -----------------------------------------------------------------------------------

  /** The characters at which splitlines ends a line; "\r\n" ends one line. */
  predicate LineBreak(c: char) {
    c as int == 10 || c as int == 11 || c as int == 12 || c as int == 13 || c as int == 28 || c as int == 29 ||
    c as int == 30 || c as int == 0x85 || c as int == 0x2028 || c as int == 0x2029
  }

  lemma BreakIff(c: char)
    ensures LineBreak(c) <==> IsBreak(c)
  {
  }

  predicate Unbroken(line: string) { forall i :: 0 <= i < |line| ==> !LineBreak(line[i]) }

  lemma UnbrokenIff(line: string)
    ensures Unbroken(line) <==> NoBreak(line)
  {
  }

  /** A text is its first line, its break and the rest, and is split there; a text without a break is one line. */
  lemma FirstLineSplits(line: string, c: char, rest: string)
    requires Unbroken(line) && LineBreak(c)
    ensures c != '\r' || rest == "" || rest[0] != '\n' ==> SplitLines(line + [c] + rest) == [line] + SplitLines(rest)
    ensures SplitLines(line + "\r\n" + rest) == [line] + SplitLines(rest)
    ensures SplitLines(line) == if line == "" then [] else [line]
  {
    UnbrokenIff(line);
    BreakIff(c);
    if c != '\r' || rest == "" || rest[0] != '\n' {
      SplitAtChar(line, [c], rest);
    }
    BreakIff('\r');
    SplitAtChar(line, "\r\n", rest);
    hide Unbroken, LineBreak, IsBreak, SplitLines, BreakWidth;
    if line != "" {
      WholeLine(line);
    } else {
      NothingSplits();
    }
  }

  lemma SplitAtChar(line: string, br: string, rest: string)
    requires NoBreak(line) && br != "" && IsBreak(br[0])
    requires br == "\r\n" || (|br| == 1 && (br != "\r" || rest == "" || rest[0] != '\n'))
    ensures SplitLines(line + br + rest) == [line] + SplitLines(rest)
  {
    var t := line + br + rest;
    var n := |line|;
    assert t[n] == br[0] && forall k :: 0 <= k < n ==> t[k] == line[k];
    hide SplitLines, IsBreak;
    SplitIs(t, n);
    assert BreakWidth(t, n) == |br|;
    assert t[..n] == line && t[n + |br|..] == rest;
  }

  // ----- Keys ------------------------------------------------------------------------------------

  predicate Word(key: string) {
    key != "" && forall i :: 0 <= i < |key| ==>
                   '0' <= key[i] <= '9' || 'A' <= key[i] <= 'Z' || 'a' <= key[i] <= 'z' || key[i] == '_'
  }

  /** White space, a hash sign or none, white space, a key, white space, an equals sign and anything. */
  predicate KeyLine(line: string, lead: string, hash: string, more: string, key: string, gap: string, rest: string) {
    line == lead + hash + more + key + gap + "=" + rest && White(lead) && (hash == "" || hash == "#") &&
    White(more) && (hash == "" ==> more == "") && Word(key) && White(gap)
  }

  /** A line has a key exactly when it is of that form, commented out or not. */
  lemma KeyOfIff(line: string, key: string)
    ensures KeyOf(line) == Some(key) <==>
            exists lead: string, hash: string, more: string, gap: string, rest: string ::
              KeyLine(line, lead, hash, more, key, gap, rest)
  {
    hide KeyLine, KeyOf;
    if KeyOf(line) == Some(key) {
      KeyOfParts(line, key);
    }
    forall lead: string, hash: string, more: string, gap: string, rest: string |
      KeyLine(line, lead, hash, more, key, gap, rest)
      ensures KeyOf(line) == Some(key)
    {
      KeyLineFound(line, lead, hash, more, key, gap, rest);
    }
  }

  lemma KeyOfParts(line: string, key: string)
    requires KeyOf(line) == Some(key)
    ensures exists lead: string, hash: string, more: string, gap: string, rest: string ::
              KeyLine(line, lead, hash, more, key, gap, rest)
  {
    var i, h, j, n, m := KeyOffsets(line, key);
    hide *;
    SixCuts(line, i, h, j, n, m);
    CutsAreKeyLine(line, line[0..i], line[i..h], line[h..j], key, line[n..m], line[m + 1..]);
  }

  lemma CutsAreKeyLine(line: string, lead: string, hash: string, more: string, key: string, gap: string, rest: string)
    requires line == lead + hash + more + key + gap + "=" + rest && White(lead) && (hash == "" || hash == "#")
    requires White(more) && (hash == "" ==> more == "") && Word(key) && White(gap)
    ensures KeyLine(line, lead, hash, more, key, gap, rest)
  {
    hide White, Word;
  }

  lemma KeyOffsets(line: string, key: string) returns (i: nat, h: nat, j: nat, n: nat, m: nat)
    requires KeyOf(line) == Some(key)
    ensures i <= h <= j < n <= m < |line| && line[j..n] == key && line[m..m + 1] == "=" && Word(key)
    ensures White(line[0..i]) && White(line[h..j]) && White(line[n..m])
    ensures (line[i..h] == "" || line[i..h] == "#") && (line[i..h] == "" ==> line[h..j] == "")
  {
    i := SkipSpaces(line, 0);
    h := if i < |line| && line[i] == '#' then i + 1 else i;
    j := if i < |line| && line[i] == '#' then SkipSpaces(line, i + 1) else i;
    n := SkipWord(line, j);
    m := SkipSpaces(line, n);
    hide IsSpace, SkipSpaces, SkipWord, White;
    assert j < n && m < |line| && line[m] == '=' && key == line[j..n];
    hide KeyOf;
    WhiteCut(line, 0, i);
    WhiteCut(line, h, j);
    WhiteCut(line, n, m);
    WordCut(line, j, n);
    assert line[i..h] == if i == h then "" else "#";
  }

  lemma WordCut(t: string, a: nat, b: nat)
    requires a < b <= |t| && forall k :: a <= k < b ==> IsWord(t[k])
    ensures Word(t[a..b])
  {
    hide IsSpace;
    assert forall k :: 0 <= k < b - a ==> t[a..b][k] == t[a + k];
  }

  lemma WhiteCut(t: string, a: nat, b: nat)
    requires a <= b <= |t| && forall k :: a <= k < b ==> IsSpace(t[k])
    ensures White(t[a..b])
  {
    hide IsSpace, WHITE;
    forall k | 0 <= k < b - a
      ensures t[a..b][k] in WHITE
    {
      WhiteIs(t[a + k]);
    }
  }

  lemma SixCuts(t: string, i: nat, h: nat, j: nat, n: nat, m: nat)
    requires i <= h <= j <= n <= m < |t| && t[m..m + 1] == "="
    ensures t == t[0..i] + t[i..h] + t[h..j] + t[j..n] + t[n..m] + "=" + t[m + 1..]
  {
  }

  /** Where the parts stand. */
  lemma KeyLineFound(line: string, lead: string, hash: string, more: string, key: string, gap: string, rest: string)
    requires KeyLine(line, lead, hash, more, key, gap, rest)
    ensures KeyOf(line) == Some(key)
  {
    hide *;
    KeyLineShape(line, lead, hash, more, key, gap, rest);
    var i := |lead|;
    var h := i + |hash|;
    var j := h + |more|;
    KeyInside(line, i, h, j, j + |key|, j + |key| + |gap|);
  }

  /** White space up to `i`, a hash sign up to `h`, white space up to `j`, the key up to `n`, white space up to `m` and
      an equals sign. */
  predicate KeyInLine(line: string, i: nat, h: nat, j: nat, n: nat, m: nat) {
    i <= h <= j < n <= m < |line| && line[m] == '=' &&
    (forall k :: 0 <= k < i ==> IsSpace(line[k])) && (forall k :: h <= k < j ==> IsSpace(line[k])) &&
    (forall k :: n <= k < m ==> IsSpace(line[k])) &&
    (forall k :: j <= k < n ==> IsWord(line[k])) &&
    (if i == h then j == h else h == i + 1 && line[i] == '#')
  }

  lemma KeyLineShape(line: string, lead: string, hash: string, more: string, key: string, gap: string, rest: string)
    requires KeyLine(line, lead, hash, more, key, gap, rest)
    ensures var i := |lead|;
            var h := i + |hash|;
            var j := h + |more|;
            var n := j + |key|;
            KeyInLine(line, i, h, j, n, n + |gap|) && line[j..n] == key
  {
    KeyLineAt(line, lead, hash, more, key, gap, rest);
    WhiteIff(lead);
    WhiteIff(more);
    WhiteIff(gap);
    hide IsSpace, White;
  }

  lemma KeyInside(line: string, i: nat, h: nat, j: nat, n: nat, m: nat)
    requires KeyInLine(line, i, h, j, n, m)
    ensures KeyOf(line) == Some(line[j..n])
  {
    EdgesAreNoSpace(line[j]);
    hide IsSpace, IsWord, KeyOf;
    SkipSpacesIs(line, 0, i);
    SkipSpacesIs(line, h, j);
    SkipSpacesIs(line, n, m);
    SkipWordIs(line, j, n);
    KeyFound(line, i, j, n, m);
  }

  lemma EdgesAreNoSpace(c: char)
    ensures !IsSpace('#') && !IsSpace('=') && !IsWord('=') && (IsWord(c) ==> !IsSpace(c) && c != '#')
    ensures forall d :: IsSpace(d) ==> !IsWord(d)
  {
  }

  lemma KeyFound(line: string, i: nat, j: nat, n: nat, m: nat)
    requires i <= j < n <= m < |line| && SkipSpaces(line, 0) == i && line[m] == '='
    requires j == if line[i] == '#' then SkipSpaces(line, i + 1) else i
    requires SkipWord(line, j) == n && SkipSpaces(line, n) == m
    ensures KeyOf(line) == Some(line[j..n])
  {
    hide SkipSpaces, SkipWord;
  }

  lemma KeyLineAt(line: string, lead: string, hash: string, more: string, key: string, gap: string, rest: string)
    requires KeyLine(line, lead, hash, more, key, gap, rest)
    ensures var i := |lead|;
            var h := i + |hash|;
            var j := h + |more|;
            var n := j + |key|;
            var m := n + |gap|;
            |line| == m + 1 + |rest| && line[m] == '=' && line[j..n] == key &&
            (forall k :: 0 <= k < i ==> line[k] == lead[k]) && (hash != "" ==> line[i] == '#') &&
            (forall k :: h <= k < j ==> line[k] == more[k - h]) && (forall k :: j <= k < n ==> line[k] == key[k - j]) &&
            (forall k :: n <= k < m ==> line[k] == gap[k - n])
  {
    hide White, Word;
  }

  /** The line written for a key: at least fourteen characters for the key, an equals sign, a blank and the value. */
  lemma FormatIs(p: Pair)
    ensures var line := Format(p);
            var n := if |p.key| < 14 then 14 else |p.key|;
            |line| == n + 2 + |p.value| && line[..|p.key|] == p.key &&
            (forall k :: |p.key| <= k < n ==> line[k] == ' ') && line[n..n + 2] == "= " && line[n + 2..] == p.value
  {
  }

  // ----- One section -----------------------------------------------------------------------------

  /** A new section or the end of the text. */
  predicate NewSection(tail: Lines) { tail == [] || (tail[0] != "" && tail[0][0] == '[') }

  /** A line of the section that holds the key, commented out or not, is replaced in its place, with the lines around
      it as they are. */
  lemma OneKeyIsSet(section: string, above: Lines, line: string, below: Lines, tail: Lines, p: Pair)
    requires Closed(above) && Closed(below) && (line == "" || line[0] != '[') && NewSection(tail)
    requires KeyOf(line) == Some(p.key) && forall i :: 0 <= i < |above| ==> KeyOf(above[i]) != Some(p.key)
    ensures var lines := ["[" + section + "]"] + (above + [line] + below) + tail;
            Has(lines, section) &&
            EditLines(lines, section, [p]) == ["[" + section + "]"] + (above + [Format(p)] + below) + tail
  {
    hide KeyOf, Format, NewSection;
    assert Closed(above + [line] + below);
    SectionIs(section, above + [line] + below, tail, [p]);
    EditInside(above, line, below, p);
  }

  /** A key that no line of the section holds is added behind its last line. */
  lemma NewKeyComesLast(section: string, body: Lines, tail: Lines, p: Pair)
    requires Closed(body) && NewSection(tail)
    requires forall i :: 0 <= i < |body| ==> KeyOf(body[i]) != Some(p.key)
    ensures var lines := ["[" + section + "]"] + body + tail;
            Has(lines, section) && EditLines(lines, section, [p]) == ["[" + section + "]"] + (body + [Format(p)]) + tail
  {
    hide KeyOf, Format, NewSection;
    SectionIs(section, body, tail, [p]);
    EditMisses(body, p);
  }

  lemma SectionIs(section: string, body: Lines, tail: Lines, p: seq<Pair>)
    requires Closed(body) && NewSection(tail)
    ensures var lines := ["[" + section + "]"] + body + tail;
            Has(lines, section) && EditLines(lines, section, p) == ["[" + section + "]"] + EditBody(body, p) + tail
  {
    var header := "[" + section + "]";
    var lines := [header] + body + tail;
    var end := 1 + |body|;
    assert header == Header(section) && lines[0] == header && (tail != [] ==> lines[end] == tail[0]);
    assert forall k :: 1 <= k < end ==> lines[k] == body[k - 1];
    hide EditBody;
    StartIs(lines, header, 0);
    EndIs(lines, 1, end);
    assert lines[..1] == [header] && lines[1..end] == body && lines[end..] == tail;
  }

  lemma {:induction false} EditMisses(b: Lines, p: Pair)
    requires forall i :: 0 <= i < |b| ==> KeyOf(b[i]) != Some(p.key)
    ensures EditBody(b, [p]) == b + [Format(p)]
    decreases |b|
  {
    hide KeyOf, Format;
    if b != [] {
      assert Hit(b[0], [p]) == 1;
      EditMisses(b[1..], p);
      assert b + [Format(p)] == [b[0]] + (b[1..] + [Format(p)]);
    } else {
      assert Formats([p]) == [Format(p)];
    }
  }

  lemma {:induction false} EditInside(above: Lines, line: string, below: Lines, p: Pair)
    requires KeyOf(line) == Some(p.key) && forall i :: 0 <= i < |above| ==> KeyOf(above[i]) != Some(p.key)
    ensures EditBody(above + [line] + below, [p]) == above + [Format(p)] + below
    decreases |above|
  {
    hide *;
    HitOne(line, p);
    if above != [] {
      HitOne(above[0], p);
      EditInside(above[1..], line, below, p);
      EditCons(above[0], above[1..] + [line] + below, [p], 1);
      FrontMoves(above, line, below);
      FrontMoves(above, Format(p), below);
    } else {
      EditCons(line, below, [p], 0);
      assert Without([p], 0) == [] by { NothingLeft(p); }
      NothingEdited(below);
      assert above + [line] + below == [line] + below && above + [Format(p)] + below == [Format(p)] + below;
    }
  }

  lemma HitOne(line: string, p: Pair)
    ensures Hit(line, [p]) == if KeyOf(line) == Some(p.key) then 0 else 1
  {
    hide KeyOf;
  }

  lemma NothingLeft(p: Pair)
    ensures Without([p], 0) == []
  {
  }

  lemma FrontMoves(above: Lines, line: string, below: Lines)
    requires above != []
    ensures above + [line] + below == [above[0]] + (above[1..] + [line] + below)
  {
  }

  /** A commented line gives way to the key and its new value. */
  lemma CommentIsReplaced(section: string, p: Pair)
    requires Word(p.key) && Unbroken(section)
    ensures SetSection("[" + section + "]\n" + ("#" + p.key + " = off" + "\n"), section, [p]) ==
            Ok("[" + section + "]\n" + (Format(p) + "\n"))
  {
    CommentHasKey(p.key);
    CommentIsLine(p.key);
    hide KeyOf, Format, SetSection, Word, Unbroken;
    OneLineIsSet(section, "#" + p.key + " = off", p);
  }

  lemma OneLineIsSet(section: string, line: string, p: Pair)
    requires Unbroken(section) && Unbroken(line) && KeyOf(line) == Some(p.key) && line != "" && line[0] != '['
    ensures SetSection("[" + section + "]\n" + (line + "\n"), section, [p]) ==
            Ok("[" + section + "]\n" + (Format(p) + "\n"))
  {
    var header := "[" + section + "]";
    assert Unbroken(header);
    hide Unbroken, KeyOf, Format, EditLines, SplitLines, Text;
    TwoLines(header, line);
    OneLineSection(section, line, p);
    TextOfTwo(header, Format(p));
    assert "[" + section + "]\n" == header + "\n";
  }

  lemma OneLineSection(section: string, line: string, p: Pair)
    requires KeyOf(line) == Some(p.key) && line != "" && line[0] != '['
    ensures Has(["[" + section + "]", line], section)
    ensures EditLines(["[" + section + "]", line], section, [p]) == ["[" + section + "]", Format(p)]
  {
    hide KeyOf, Format, EditLines, Has;
    var header := "[" + section + "]";
    OneKeyIsSet(section, [], line, [], [], p);
    assert [header] + ([] + [line] + []) + [] == [header, line];
    assert [header] + ([] + [Format(p)] + []) + [] == [header, Format(p)];
  }

  lemma TextOfTwo(a: string, b: string)
    ensures Text([a, b]) == a + "\n" + (b + "\n")
  {
    assert [a, b][1..] == [b] && [b][1..] == [];
    assert Text([b]) == b + "\n" + "" == b + "\n";
  }

  lemma TwoLines(a: string, b: string)
    requires Unbroken(a) && Unbroken(b)
    ensures SplitLines(a + "\n" + (b + "\n")) == [a, b]
  {
    assert LineBreak('\n');
    hide Unbroken, LineBreak, SplitLines;
    FirstLineSplits(a, '\n', b + "\n");
    FirstLineSplits(b, '\n', "");
    FirstLineSplits("", '\n', "") by { assert Unbroken("") by { NothingBreaks(); } }
    assert b + "\n" + "" == b + "\n";
  }

  lemma NothingBreaks()
    ensures Unbroken("")
  {
  }

  lemma CommentHasKey(key: string)
    requires Word(key)
    ensures KeyOf("#" + key + " = off") == Some(key)
  {
    BlankAndTab();
    assert White(" ") by { hide WHITE; }
    assert White("");
    hide *;
    KeyLineIs("", "#", "", key, " ", " off");
    KeyLineFound("" + "#" + "" + key + " " + "=" + " off", "", "#", "", key, " ", " off");
    HashText(key);
  }

  lemma HashText(key: string)
    ensures "" + "#" + "" + key + " " + "=" + " off" == "#" + key + " = off"
  {
    assert "" + "#" + "" == "#" && " " + "=" + " off" == " = off";
    hide *;
    Regrouped("#" + key, " ", "=", " off");
  }

  lemma Regrouped(a: string, x: string, y: string, z: string)
    ensures a + x + y + z == a + (x + y + z)
  {
  }

  lemma KeyLineIs(lead: string, hash: string, more: string, key: string, gap: string, rest: string)
    requires White(lead) && (hash == "" || hash == "#") && White(more) && (hash == "" ==> more == "")
    requires Word(key) && White(gap)
    ensures KeyLine(lead + hash + more + key + gap + "=" + rest, lead, hash, more, key, gap, rest)
  {
    hide White, Word;
  }

  lemma CommentIsLine(key: string)
    requires Word(key)
    ensures var line := "#" + key + " = off"; Unbroken(line) && line[0] == '#'
  {
    var line := "#" + key + " = off";
    assert forall i :: 1 <= i <= |key| ==> line[i] == key[i - 1];
    assert line[|key| + 1..] == " = off";
    assert forall i :: |key| < i < |line| ==> line[i] == " = off"[i - |key| - 1];
  }
}
