// set_section_values of the config editor (experiment-manager/backend/app/config_generator.py): replace or
// add keys inside one section of an INI text.
module SectionEdit {
  import opened Options
  import opened PythonText

  datatype Result = Ok(text: string) | MissingSection(header: string)

  type Lines = seq<string>

  datatype Pair = Pair(key: string, value: string)

  predicate DistinctKeys(p: seq<Pair>) { forall i, j :: 0 <= i < j < |p| ==> p[i].key != p[j].key }

  // ------------------------------------------------------------------------------------------------
  // Lines
  // ------------------------------------------------------------------------------------------------

  predicate IsWord(c: char) { 'a' <= c <= 'z' || 'A' <= c <= 'Z' || '0' <= c <= '9' || c == '_' }

  predicate Identifier(k: string) { k != [] && forall i :: 0 <= i < |k| ==> IsWord(k[i]) }

  function SkipWord(t: string, i: nat): (n: nat)
    requires i <= |t|
    ensures i <= n <= |t| && (n < |t| ==> !IsWord(t[n])) && forall k :: i <= k < n ==> IsWord(t[k])
    decreases |t| - i
  {
    if i == |t| || !IsWord(t[i]) then i else SkipWord(t, i + 1)
  }

  /** The key that ^\s*#?\s*([A-Za-z0-9_]+)\s*= finds in a line. */
  function KeyOf(line: string): (k: Option<string>)
    ensures k.Some? ==> Identifier(k.value)
  {
    var i := SkipSpaces(line, 0);
    var j := if i < |line| && line[i] == '#' then SkipSpaces(line, i + 1) else i;
    var n := SkipWord(line, j);
    var m := SkipSpaces(line, n);
    if j < n && m < |line| && line[m] == '=' then Some(line[j..n]) else None
  }

  function Spaces(n: nat): (s: string)
    ensures |s| == n && forall i :: 0 <= i < n ==> s[i] == ' '
  {
    seq(n, _ => ' ')
  }

  /** f"{key:<14}" */
  function Padded(key: string): string { key + Spaces(if |key| < 14 then 14 - |key| else 0) }

  function Format(p: Pair): string { Padded(p.key) + "= " + p.value }

  function Formats(p: seq<Pair>): (lines: Lines)
    ensures |lines| == |p| && forall i :: 0 <= i < |p| ==> lines[i] == Format(p[i])
  {
    seq(|p|, i requires 0 <= i < |p| => Format(p[i]))
  }

  /** Where a key is pending; |p| when it is not. */
  function IndexOf(p: seq<Pair>, key: string): (i: nat)
    ensures i <= |p| && (i < |p| ==> p[i].key == key) && forall j :: 0 <= j < i ==> p[j].key != key
  {
    if p == [] || p[0].key == key then 0 else 1 + IndexOf(p[1..], key)
  }

  function Without(p: seq<Pair>, i: nat): seq<Pair>
    requires i < |p|
  {
    p[..i] + p[i + 1..]
  }

  /** The place of the pending pair that a line takes; |p| when it takes none. */
  function Hit(line: string, p: seq<Pair>): (i: nat)
    ensures i <= |p| && (i < |p| ==> KeyOf(line) == Some(p[i].key))
  {
    match KeyOf(line)
    case None => |p|
    case Some(k) => IndexOf(p, k)
  }

  /** The lines of the section after the edit: the first line of each key is replaced, and the keys that
      are not found come last. */
  function EditBody(body: Lines, p: seq<Pair>): Lines {
    if body == [] then Formats(p)
    else
      var i := Hit(body[0], p);
      if i < |p| then [Format(p[i])] + EditBody(body[1..], Without(p, i))
      else [body[0]] + EditBody(body[1..], p)
  }

  predicate Opens(line: string) { line != [] && line[0] == '[' }

  /** lines.index(header) */
  function StartOf(lines: Lines, header: string): (i: nat)
    ensures i <= |lines| && (i < |lines| ==> lines[i] == header) && forall k :: 0 <= k < i ==> lines[k] != header
  {
    if lines == [] || lines[0] == header then 0 else 1 + StartOf(lines[1..], header)
  }

  /** The first line from `i` on that opens a section, else the end. */
  function EndOf(lines: Lines, i: nat): (n: nat)
    requires i <= |lines|
    ensures i <= n <= |lines| && (n < |lines| ==> Opens(lines[n])) && forall k :: i <= k < n ==> !Opens(lines[k])
    decreases |lines| - i
  {
    if i == |lines| || Opens(lines[i]) then i else EndOf(lines, i + 1)
  }

  function Header(section: string): string { "[" + section + "]" }

  predicate Has(lines: Lines, section: string) { StartOf(lines, Header(section)) < |lines| }

  function EditLines(lines: Lines, section: string, p: seq<Pair>): Lines
    requires Has(lines, section)
  {
    var start := StartOf(lines, Header(section));
    var end := EndOf(lines, start + 1);
    lines[..start + 1] + EditBody(lines[start + 1..end], p) + lines[end..]
  }

  function SetSection(content: string, section: string, p: seq<Pair>): Result {
    var lines := SplitLines(content);
    if Has(lines, section) then Ok(Text(EditLines(lines, section, p))) else MissingSection(Header(section))
  }

  // ------------------------------------------------------------------------------------------------
  // One formatted line
  // ------------------------------------------------------------------------------------------------

  lemma SkipWordIs(t: string, i: nat, n: nat)
    requires i <= n <= |t| && (n < |t| ==> !IsWord(t[n])) && forall k :: i <= k < n ==> IsWord(t[k])
    ensures SkipWord(t, i) == n
  {
    var m := SkipWord(t, i);
    hide IsWord;
    assert m < |t| ==> !IsWord(t[m]);
    assert n < |t| ==> !IsWord(t[n]);
  }

  /** A line that the editor wrote has the key it was written for. */
  lemma KeyOfPadded(key: string, rest: string)
    requires Identifier(key)
    ensures KeyOf(Padded(key) + "=" + rest) == Some(key)
  {
    var t := Padded(key) + "=" + rest;
    var n := |key|;
    var m := |Padded(key)|;
    assert forall i :: 0 <= i < n ==> t[i] == key[i];
    assert forall i :: n <= i < m ==> t[i] == ' ';
    assert t[m] == '=';
    assert IsWord(t[0]);
    SkipSpacesIs(t, 0, 0);
    SkipWordIs(t, 0, n);
    SkipSpacesIs(t, n, m);
    assert t[0..n] == key;
  }

  /** The value stays on one line: at most a carriage return follows it. */
  predicate SingleLine(v: string) { |SplitLines(v + "\n")| == 1 }

  predicate Good(p: seq<Pair>) { forall i :: 0 <= i < |p| ==> Identifier(p[i].key) && SingleLine(p[i].value) }

  predicate Clean(lines: Lines) { forall i :: 0 <= i < |lines| ==> NoBreak(lines[i]) }

  predicate Closed(lines: Lines) { forall i :: 0 <= i < |lines| ==> !Opens(lines[i]) }

  lemma WordsDoNotBreak(c: char)
    requires IsWord(c)
    ensures !IsBreak(c) && c != '['
  {
  }

  /** How the line of a pair is read again: its first piece has the key of the pair. */
  lemma FormatReread(p: Pair)
    requires Identifier(p.key)
    ensures var pieces := SplitLines(Format(p) + "\n");
            |pieces| == |SplitLines(p.value + "\n")| >= 1 && KeyOf(pieces[0]) == Some(p.key) && !Opens(pieces[0])
  {
    hide SplitLines, KeyOf, NoBreak, Opens, Padded;
    var a := Padded(p.key) + "= ";
    var t := p.value + "\n";
    PaddedNoBreak(p.key);
    SplitPrefix(a, t);
    assert Format(p) + "\n" == a + t;
    FirstLine(p.key, SplitLines(t)[0]);
  }

  lemma PaddedNoBreak(key: string)
    requires Identifier(key)
    ensures NoBreak(Padded(key) + "= ")
  {
    forall i | 0 <= i < |key|
      ensures !IsBreak(key[i])
    {
      WordsDoNotBreak(key[i]);
    }
  }

  lemma FirstLine(key: string, first: string)
    requires Identifier(key)
    ensures KeyOf(Padded(key) + "= " + first) == Some(key) && !Opens(Padded(key) + "= " + first)
  {
    hide KeyOf;
    var a := Padded(key) + "= ";
    KeyOfPadded(key, " " + first);
    assert a + first == Padded(key) + "=" + (" " + first);
    WordsDoNotBreak(key[0]);
    assert (a + first)[0] == key[0];
  }

  lemma RereadCons(x: string, rest: Lines)
    ensures Reread([x] + rest) == SplitLines(x + "\n") + Reread(rest)
  {
    RereadFirst([x] + rest);
    assert ([x] + rest)[1..] == rest;
  }

  lemma HitOwn(line: string, p: seq<Pair>, i: nat)
    requires i < |p| && DistinctKeys(p) && KeyOf(line) == Some(p[i].key)
    ensures Hit(line, p) == i
  {
    var j := IndexOf(p, p[i].key);
    assert j <= i && p[j].key == p[i].key;
  }

  lemma WithoutKeeps(p: seq<Pair>, i: nat)
    requires i < |p|
    ensures DistinctKeys(p) ==> DistinctKeys(Without(p, i))
    ensures Good(p) ==> Good(Without(p, i))
  {
    hide Identifier, SingleLine;
    assert forall j :: 0 <= j < |p| - 1 ==> Without(p, i)[j] == p[if j < i then j else j + 1];
  }

  lemma FormatsCons(p: seq<Pair>)
    requires p != []
    ensures Formats(p) == [Format(p[0])] + EditBody([], Without(p, 0))
  {
    assert Without(p, 0) == p[1..];
  }

  /** One edited line in front of an edited rest. */
  lemma EditCons(line: string, rest: Lines, p: seq<Pair>, i: nat)
    requires i == Hit(line, p)
    ensures EditBody([line] + rest, p) ==
            if i < |p| then [Format(p[i])] + EditBody(rest, Without(p, i)) else [line] + EditBody(rest, p)
  {
    assert ([line] + rest)[1..] == rest;
  }

  lemma FirstPiece(p: seq<Pair>, i: nat, rest: Lines)
    requires Good(p) && DistinctKeys(p) && i < |p|
    ensures Reread([Format(p[i])] + rest) == [SplitLines(Format(p[i]) + "\n")[0]] + Reread(rest)
    ensures EditBody(Reread([Format(p[i])] + rest), p) == [Format(p[i])] + EditBody(Reread(rest), Without(p, i))
    ensures !Opens(SplitLines(Format(p[i]) + "\n")[0])
  {
    hide Format, KeyOf, Reread, SplitLines, EditBody, Opens;
    FormatReread(p[i]);
    var pieces := SplitLines(Format(p[i]) + "\n");
    assert pieces == [pieces[0]];
    RereadCons(Format(p[i]), rest);
    HitOwn(pieces[0], p, i);
    EditCons(pieces[0], Reread(rest), p, i);
  }

  /** Editing again, after the text was read again, changes nothing. */
  lemma {:induction false} ReEdit(b: Lines, p: seq<Pair>)
    requires Good(p) && DistinctKeys(p) && Clean(b)
    ensures EditBody(Reread(EditBody(b, p)), p) == EditBody(b, p)
    decreases |b| + |p|
  {
    hide Hit, Good, DistinctKeys, Format, Reread;
    if b == [] {
      if p == [] {
        NothingReread();
      } else {
        FormatsCons(p);
        WithoutKeeps(p, 0);
        FirstPiece(p, 0, EditBody([], Without(p, 0)));
        ReEdit([], Without(p, 0));
      }
    } else {
      var i := Hit(b[0], p);
      if i < |p| {
        WithoutKeeps(p, i);
        FirstPiece(p, i, EditBody(b[1..], Without(p, i)));
        ReEdit(b[1..], Without(p, i));
      } else {
        RereadCons(b[0], EditBody(b[1..], p));
        OneLine(b[0]);
        EditCons(b[0], Reread(EditBody(b[1..], p)), p, i);
        ReEdit(b[1..], p);
      }
    }
  }

  lemma NothingReread()
    ensures Reread([]) == []
  {
  }

  /** The edited section has no line that opens another one. */
  lemma {:induction false} EditCloses(b: Lines, p: seq<Pair>)
    requires Good(p) && DistinctKeys(p) && Clean(b) && Closed(b)
    ensures Closed(Reread(EditBody(b, p)))
    decreases |b| + |p|
  {
    hide Hit, Good, DistinctKeys, Format, Reread, Opens;
    if b == [] {
      if p == [] {
        NothingReread();
      } else {
        FormatsCons(p);
        WithoutKeeps(p, 0);
        FirstPiece(p, 0, EditBody([], Without(p, 0)));
        EditCloses([], Without(p, 0));
      }
    } else {
      var i := Hit(b[0], p);
      if i < |p| {
        WithoutKeeps(p, i);
        FirstPiece(p, i, EditBody(b[1..], Without(p, i)));
        EditCloses(b[1..], Without(p, i));
      } else {
        RereadCons(b[0], EditBody(b[1..], p));
        OneLine(b[0]);
        EditCloses(b[1..], p);
      }
    }
  }

  /** An edit never makes the section shorter, and keeps its length only when every pair is found and stays
      on its line. */
  lemma {:induction false} EditCount(b: Lines, p: seq<Pair>)
    requires Clean(b)
    ensures |Reread(EditBody(b, p))| >= |b|
    ensures |Reread(EditBody(b, p))| == |b| ==> Good(p)
    decreases |b| + |p|
  {
    hide Format, Reread, SplitLines, SingleLine;
    if b == [] {
      if p == [] {
        NothingReread();
      } else {
        FormatsCons(p);
        RereadCons(Format(p[0]), EditBody([], Without(p, 0)));
        SomePiece(Format(p[0]));
      }
    } else {
      var i := Hit(b[0], p);
      if i < |p| {
        RereadCons(Format(p[i]), EditBody(b[1..], Without(p, i)));
        FormatReread(p[i]);
        EditCount(b[1..], Without(p, i));
        OnlyPiece(p, i);
      } else {
        RereadCons(b[0], EditBody(b[1..], p));
        OneLine(b[0]);
        EditCount(b[1..], p);
      }
    }
  }

  lemma SomePiece(x: string)
    ensures |SplitLines(x + "\n")| >= 1
  {
  }

  lemma OnlyPiece(p: seq<Pair>, i: nat)
    requires i < |p| && Identifier(p[i].key)
    ensures Good(Without(p, i)) && |SplitLines(p[i].value + "\n")| == 1 ==> Good(p)
  {
    hide Identifier, SplitLines;
    var q := Without(p, i);
    assert forall j :: 0 <= j < |p| && j != i ==> p[j] == q[if j < i then j else j - 1];
  }

  // ------------------------------------------------------------------------------------------------
  // The whole text
  // ------------------------------------------------------------------------------------------------

  lemma StartIs(lines: Lines, header: string, n: nat)
    requires n < |lines| && lines[n] == header && forall k :: 0 <= k < n ==> lines[k] != header
    ensures StartOf(lines, header) == n
  {
    var m := StartOf(lines, header);
    assert m <= n;
  }

  lemma EndIs(lines: Lines, i: nat, n: nat)
    requires i <= n <= |lines| && (n < |lines| ==> Opens(lines[n])) && forall k :: i <= k < n ==> !Opens(lines[k])
    ensures EndOf(lines, i) == n
  {
    var m := EndOf(lines, i);
    hide Opens;
    assert m < |lines| ==> Opens(lines[m]);
    assert n < |lines| ==> Opens(lines[n]);
  }

  /** `lines` is made of the lines up to the header, the body of the section, and the rest. */
  ghost predicate Parts(lines: Lines, section: string, pre: Lines, body: Lines, post: Lines) {
    lines == pre + body + post && pre != [] && pre[|pre| - 1] == Header(section) &&
    (forall k :: 0 <= k < |pre| - 1 ==> pre[k] != Header(section)) && Closed(body) && (post != [] ==> Opens(post[0]))
  }

  lemma PartsAre(lines: Lines, section: string) returns (pre: Lines, body: Lines, post: Lines)
    requires Has(lines, section)
    ensures Parts(lines, section, pre, body, post)
    ensures var start := StartOf(lines, Header(section));
            var end := EndOf(lines, start + 1);
            pre == lines[..start + 1] && body == lines[start + 1..end] && post == lines[end..]
  {
    var start := StartOf(lines, Header(section));
    var end := EndOf(lines, start + 1);
    pre, body, post := lines[..start + 1], lines[start + 1..end], lines[end..];
    hide Opens;
  }

  lemma Slices<T>(a: seq<T>, b: seq<T>, c: seq<T>)
    ensures (a + b + c)[..|a|] == a && (a + b + c)[|a|..|a| + |b|] == b && (a + b + c)[|a| + |b|..] == c
  {
  }

  lemma Elements<T>(a: seq<T>, b: seq<T>, c: seq<T>)
    ensures forall k :: 0 <= k < |a| ==> (a + b + c)[k] == a[k]
    ensures forall k :: |a| <= k < |a| + |b| ==> (a + b + c)[k] == b[k - |a|]
  {
  }

  lemma PartsIndex(lines: Lines, section: string, pre: Lines, body: Lines, post: Lines)
    requires Parts(lines, section, pre, body, post)
    ensures StartOf(lines, Header(section)) == |pre| - 1 && EndOf(lines, |pre|) == |pre| + |body| <= |lines|
  {
    hide Opens, Header;
    Elements(pre, body, post);
    StartIs(lines, Header(section), |pre| - 1);
    assert |pre| + |body| < |lines| ==> lines[|pre| + |body|] == post[0];
    EndIs(lines, |pre|, |pre| + |body|);
  }

  lemma PartsConcat(lines: Lines, section: string, pre: Lines, body: Lines, post: Lines)
    requires Parts(lines, section, pre, body, post)
    ensures lines == pre + body + post && pre != [] && Closed(body)
  {
  }

  lemma PartsStay(lines: Lines, section: string, pre: Lines, body: Lines, post: Lines, r: Lines)
    requires Parts(lines, section, pre, body, post) && Closed(r)
    ensures Parts(pre + r + post, section, pre, r, post)
  {
    hide Closed, Opens, Header;
  }

  lemma EditParts(lines: Lines, section: string, pre: Lines, body: Lines, post: Lines, p: seq<Pair>)
    requires Parts(lines, section, pre, body, post)
    ensures Has(lines, section) && EditLines(lines, section, p) == pre + EditBody(body, p) + post
    ensures StartOf(lines, Header(section)) == |pre| - 1 && EndOf(lines, |pre|) == |pre| + |body|
  {
    hide *;
    PartsIndex(lines, section, pre, body, post);
    PartsConcat(lines, section, pre, body, post);
    Slices(pre, body, post);
    EditAt(lines, section, p, |pre|, |pre| + |body|);
  }

  lemma EditAt(lines: Lines, section: string, p: seq<Pair>, n: nat, end: nat)
    requires 0 < n <= end <= |lines| && StartOf(lines, Header(section)) == n - 1 && EndOf(lines, n) == end
    ensures Has(lines, section)
    ensures EditLines(lines, section, p) == lines[..n] + EditBody(lines[n..end], p) + lines[end..]
  {
    hide EditBody, StartOf, EndOf, Header;
  }

  lemma CleanParts(a: Lines, b: Lines, c: Lines)
    requires Clean(a + b + c)
    ensures Clean(a) && Clean(b) && Clean(c)
  {
    hide NoBreak;
    var l := a + b + c;
    assert forall k :: 0 <= k < |a| ==> a[k] == l[k];
    assert forall k :: 0 <= k < |b| ==> b[k] == l[|a| + k];
    assert forall k :: 0 <= k < |c| ==> c[k] == l[|a| + |b| + k];
  }

  /** The lines of the text after an edit. */
  lemma RereadParts(pre: Lines, out: Lines, post: Lines)
    requires Clean(pre) && Clean(post)
    ensures Reread(pre + out + post) == pre + Reread(out) + post
  {
    hide NoBreak, Reread;
    RereadConcat(pre + out, post);
    RereadConcat(pre, out);
    RereadSame(pre);
    RereadSame(post);
  }

  /** An edit leaves every line outside its section as it is, whatever the keys and values are: `r` is what
      stands between afterwards. With identifier keys and one-line values `r` is the section again. */
  lemma OutsideIsKept(content: string, section: string, p: seq<Pair>) returns (r: Lines)
    requires Has(SplitLines(content), section)
    ensures var was, now := SplitLines(content), SplitLines(SetSection(content, section, p).text);
            var start := StartOf(was, Header(section));
            now == was[..start + 1] + r + was[EndOf(was, start + 1)..] &&
            (Good(p) && DistinctKeys(p) ==>
               StartOf(now, Header(section)) == start && start < |now| && EndOf(now, start + 1) == start + 1 + |r|)
  {
    hide *;
    var lines := SplitLines(content);
    var pre, body, post := PartsAre(lines, section);
    var again := EditAgain(content, section, p, pre, body, post);
    r := Reread(EditBody(body, p));
    PartsConcat(lines, section, pre, body, post);
    PartsIndex(lines, section, pre, body, post);
    Slices(pre, body, post);
    if Good(p) && DistinctKeys(p) {
      EditCloses(body, p);
      PartsStay(lines, section, pre, body, post, r);
      PartsIndex(again, section, pre, r, post);
    }
  }

  lemma GrowsAgain(lines: Lines, section: string, p: seq<Pair>)
    requires Clean(lines) && Has(lines, section) && !Good(p)
    ensures Reread(EditLines(lines, section, p)) != lines
  {
    hide Good, Reread, EditBody;
    var pre, body, post := PartsAre(lines, section);
    CleanParts(pre, body, post);
    EditParts(lines, section, pre, body, post, p);
    RereadParts(pre, EditBody(body, p), post);
    EditCount(body, p);
  }

  /** Setting the same values again changes nothing, exactly when every key is an identifier and every
      value stays on its line. */
  lemma IdempotentIff(content: string, section: string, p: seq<Pair>)
    requires DistinctKeys(p) && Has(SplitLines(content), section)
    ensures SetSection(SetSection(content, section, p).text, section, p) == SetSection(content, section, p) <==> Good(p)
  {
    var lines := SplitLines(content);
    var pre, body, post := PartsAre(lines, section);
    var again := EditAgain(content, section, p, pre, body, post);
    hide SplitLines, Text;
    if Good(p) {
      EditTwice(section, p, pre, body, post);
    } else {
      assert Has(again, section) && Clean(again);
      hide EditLines;
      GrowsAgain(again, section, p);
    }
  }

  /** The lines that the second edit reads. */
  lemma EditAgain(content: string, section: string, p: seq<Pair>, pre: Lines, body: Lines, post: Lines)
      returns (again: Lines)
    requires Parts(SplitLines(content), section, pre, body, post)
    ensures SetSection(content, section, p) == Ok(Text(pre + EditBody(body, p) + post))
    ensures Clean(body) && Clean(again) && Has(again, section)
    ensures again == SplitLines(Text(pre + EditBody(body, p) + post)) == pre + Reread(EditBody(body, p)) + post
  {
    hide EditBody, EditLines, NoBreak;
    var lines := SplitLines(content);
    SplitNoBreak(content);
    CleanParts(pre, body, post);
    EditParts(lines, section, pre, body, post, p);
    RereadParts(pre, EditBody(body, p), post);
    SplitNoBreak(Text(pre + EditBody(body, p) + post));
    again := pre + Reread(EditBody(body, p)) + post;
    Elements(pre, Reread(EditBody(body, p)), post);
    StartIs(again, Header(section), |pre| - 1);
  }

  lemma EditTwice(section: string, p: seq<Pair>, pre: Lines, body: Lines, post: Lines)
    requires Good(p) && DistinctKeys(p) && Clean(body) && Parts(pre + body + post, section, pre, body, post)
    ensures var again := pre + Reread(EditBody(body, p)) + post;
            Has(again, section) && EditLines(again, section, p) == pre + EditBody(body, p) + post
  {
    EditCloses(body, p);
    hide EditBody, EditLines, NoBreak, Opens, Reread;
    ReEdit(body, p);
    EditParts(pre + Reread(EditBody(body, p)) + post, section, pre, Reread(EditBody(body, p)), post, p);
  }

  // ------------------------------------------------------------------------------------------------
  // Line breaks in what is written
  // ------------------------------------------------------------------------------------------------

  /** No line break but the newline. */
  predicate NewlineOnly(t: string) { forall k :: 0 <= k < |t| && IsBreak(t[k]) ==> t[k] == '\n' }

  predicate NewlinesOnly(p: seq<Pair>) { forall i :: 0 <= i < |p| ==> NewlineOnly(p[i].key) && NewlineOnly(p[i].value) }

  /** `t` is the text `x` when newlines are its only breaks, else it differs at place `k`. */
  predicate ChangedAt(x: string, t: string, k: nat) {
    if NewlineOnly(x) then t == x else k < |x| && k < |t| && x[k] != t[k]
  }

  /** A text of whole lines is the same after it was split and joined exactly when newlines are its only breaks;
      else some character comes out different at its own place. */
  lemma {:induction false} FirstChange(x: string) returns (k: nat)
    requires x == [] || x[|x| - 1] == '\n'
    ensures ChangedAt(x, Text(SplitLines(x)), k)
    decreases |x|
  {
    k := 0;
    if x == [] {
      NothingSplits();
    } else {
      hide *;
      var n, rest := FirstCut(x);
      var t := Text(SplitLines(rest));
      TextCons(x[..n], SplitLines(rest));
      if x[n] == '\n' {
        k := FirstChange(rest);
        ChangeLater(x, n, rest, t, k);
        k := n + 1 + k;
      } else {
        ChangeHere(x, n, t);
        k := n;
      }
    }
  }

  /** The first line of a text of whole lines, and the rest. */
  lemma FirstCut(x: string) returns (n: nat, rest: string)
    requires x != [] && x[|x| - 1] == '\n'
    ensures n < |x| && IsBreak(x[n]) && forall j :: 0 <= j < n ==> !IsBreak(x[j])
    ensures |rest| < |x| && (rest == [] || rest[|rest| - 1] == '\n') && (x[n] == '\n' ==> rest == x[n + 1..])
    ensures SplitLines(x) == [x[..n]] + SplitLines(rest)
  {
    NewlineBreaks();
    n := BreakAt(x, 0);
    assert n < |x|;
    rest := x[n + BreakWidth(x, n)..];
    SplitIs(x, n);
    hide SplitLines, BreakAt, IsBreak;
  }

  lemma ChangeLater(x: string, n: nat, rest: string, t: string, k: nat)
    requires n < |x| && x[n] == '\n' && rest == x[n + 1..] && forall j :: 0 <= j < n ==> !IsBreak(x[j])
    requires ChangedAt(rest, t, k)
    ensures ChangedAt(x, x[..n] + "\n" + t, n + 1 + k)
  {
    OnlyAfter(x, n);
    hide NewlineOnly, IsBreak;
    AfterBreak(x, n, rest, t);
  }

  lemma ChangeHere(x: string, n: nat, t: string)
    requires n < |x| && IsBreak(x[n]) && x[n] != '\n'
    ensures ChangedAt(x, x[..n] + "\n" + t, n)
  {
    hide IsBreak;
  }

  lemma TextCons(line: string, rest: Lines)
    ensures Text([line] + rest) == line + "\n" + Text(rest)
  {
    assert ([line] + rest)[1..] == rest;
  }

  lemma OnlyAfter(x: string, n: nat)
    requires n < |x| && x[n] == '\n' && forall k :: 0 <= k < n ==> !IsBreak(x[k])
    ensures NewlineOnly(x) <==> NewlineOnly(x[n + 1..])
  {
    hide IsBreak;
    var rest := x[n + 1..];
    assert forall k :: 0 <= k < |rest| ==> rest[k] == x[n + 1 + k];
    assert forall k :: n < k < |x| ==> x[k] == rest[k - n - 1];
  }

  lemma AfterBreak(x: string, n: nat, rest: string, t: string)
    requires n < |x| && x[n] == '\n' && rest == x[n + 1..]
    ensures rest == t ==> x[..n] + "\n" + t == x
    ensures forall k :: 0 <= k < |rest| ==> x[n + 1 + k] == rest[k]
    ensures forall k :: 0 <= k < |t| ==> (x[..n] + "\n" + t)[n + 1 + k] == t[k]
  {
  }

  lemma {:induction false} TextConcat(a: Lines, b: Lines)
    ensures Text(a + b) == Text(a) + Text(b)
    decreases |a|
  {
    if a == [] {
      assert a + b == b;
    } else {
      TailConcat(a, b);
      TextConcat(a[1..], b);
    }
  }

  lemma {:induction false} TextEnds(a: Lines)
    ensures a != [] ==> Text(a) != [] && Text(a)[|Text(a)| - 1] == '\n'
    decreases |a|
  {
    if a != [] {
      TextEnds(a[1..]);
    }
  }

  lemma {:induction false} TextNewlineOnly(lines: Lines)
    ensures NewlineOnly(Text(lines)) <==> forall i :: 0 <= i < |lines| ==> NewlineOnly(lines[i])
    decreases |lines|
  {
    if lines != [] {
      TextNewlineOnly(lines[1..]);
      hide NewlineOnly;
      NewlineOnlyConcat(lines[0] + "\n", Text(lines[1..]));
      NewlineOnlyConcat(lines[0], "\n");
      JustNewline();
      assert forall i :: 1 <= i < |lines| ==> lines[i] == lines[1..][i - 1];
    }
  }

  lemma JustNewline()
    ensures NewlineOnly("\n")
  {
  }

  lemma NewlineOnlyConcat(a: string, b: string)
    ensures NewlineOnly(a + b) <==> NewlineOnly(a) && NewlineOnly(b)
  {
    hide IsBreak;
    assert forall k :: 0 <= k < |b| ==> (a + b)[|a| + k] == b[k];
    assert forall k :: 0 <= k < |a| ==> (a + b)[k] == a[k];
  }

  lemma FormatNewlineOnly(p: Pair)
    ensures NewlineOnly(Format(p)) <==> NewlineOnly(p.key) && NewlineOnly(p.value)
  {
    var gap := Padded(p.key)[|p.key|..];
    assert NewlineOnly(gap + "= ");
    hide NewlineOnly;
    assert Format(p) == p.key + ((gap + "= ") + p.value);
    NewlineOnlyConcat(p.key, (gap + "= ") + p.value);
    NewlineOnlyConcat(gap + "= ", p.value);
  }

  /** Every pair has its line in the edited section. */
  lemma {:induction false} EditHolds(b: Lines, p: seq<Pair>, i: nat)
    requires i < |p|
    ensures Format(p[i]) in EditBody(b, p)
    decreases |b|
  {
    hide Hit, Format;
    if b == [] {
      assert Formats(p)[i] == Format(p[i]);
    } else {
      var h := Hit(b[0], p);
      if h < |p| {
        if i != h {
          var k := if i < h then i else i - 1;
          assert Without(p, h)[k] == p[i];
          EditHolds(b[1..], Without(p, h), k);
        }
      } else {
        EditHolds(b[1..], p, i);
      }
    }
  }

  predicate IsFormat(p: seq<Pair>, x: string) { exists i :: 0 <= i < |p| && x == Format(p[i]) }

  lemma {:induction false} EditMembers(b: Lines, p: seq<Pair>, x: string)
    requires x in EditBody(b, p)
    ensures x in b || IsFormat(p, x)
    decreases |b|
  {
    hide Hit, Format;
    if b == [] {
      var i :| 0 <= i < |p| && Formats(p)[i] == x;
    } else {
      var h := Hit(b[0], p);
      if h < |p| {
        IsFormatWithout(p, h, x);
        hide IsFormat;
        if x != Format(p[h]) {
          EditMembers(b[1..], Without(p, h), x);
        }
      } else if x != b[0] {
        hide IsFormat;
        EditMembers(b[1..], p, x);
      }
    }
  }

  lemma IsFormatWithout(p: seq<Pair>, h: nat, x: string)
    requires h < |p|
    ensures x == Format(p[h]) || IsFormat(Without(p, h), x) ==> IsFormat(p, x)
  {
    hide Format;
    assert forall i :: 0 <= i < |p| - 1 ==> Without(p, h)[i] == p[if i < h then i else i + 1];
  }

  /** The text of an edited section has no break but newlines exactly when its pairs have none. */
  lemma EditNewlineOnly(b: Lines, p: seq<Pair>)
    requires Clean(b)
    ensures NewlineOnly(Text(EditBody(b, p))) <==> NewlinesOnly(p)
  {
    var e := EditBody(b, p);
    TextNewlineOnly(e);
    forall i | 0 <= i < |p|
      ensures Format(p[i]) in e && (NewlineOnly(Format(p[i])) <==> NewlineOnly(p[i].key) && NewlineOnly(p[i].value))
    {
      EditHolds(b, p, i);
      FormatNewlineOnly(p[i]);
    }
    forall x | x in e
      ensures NewlinesOnly(p) ==> NewlineOnly(x)
    {
      EditMembers(b, p, x);
      CleanNewlineOnly(b);
    }
    hide EditBody, Format, NewlineOnly, Text;
  }

  lemma CleanNewlineOnly(b: Lines)
    requires Clean(b)
    ensures forall x :: x in b ==> NewlineOnly(x)
  {
    hide IsBreak;
  }

  /** The lines that an edit writes for its pairs. */
  function Written(p: seq<Pair>): Lines { Reread(Formats(p)) }

  /** A line that opens a section comes into the edited section with what is written. */
  lemma {:induction false} OpenerInEdit(b: Lines, p: seq<Pair>, h: string)
    requires Clean(b) && Closed(b) && Opens(h)
    ensures h in Reread(EditBody(b, p)) <==> h in Written(p)
    decreases |b|
  {
    hide Hit, Format, Reread, SplitLines, Opens, NoBreak;
    if b != [] {
      var i := Hit(b[0], p);
      if i < |p| {
        RereadCons(Format(p[i]), EditBody(b[1..], Without(p, i)));
        OpenerInEdit(b[1..], Without(p, i), h);
        WrittenSplits(p, i, h);
      } else {
        RereadCons(b[0], EditBody(b[1..], p));
        OneLine(b[0]);
        OpenerInEdit(b[1..], p, h);
      }
    }
  }

  lemma WrittenSplits(p: seq<Pair>, i: nat, h: string)
    requires i < |p|
    ensures h in Written(p) <==> h in SplitLines(Format(p[i]) + "\n") || h in Written(Without(p, i))
  {
    var u, v := Formats(p[..i]), Formats(p[i + 1..]);
    FormatsConcat(p[..i], p[i + 1..]);
    FormatsConcat([p[i]], p[i + 1..]);
    FormatsConcat(p[..i], [p[i]] + p[i + 1..]);
    assert p == p[..i] + ([p[i]] + p[i + 1..]);
    OneFormat(p[i]);
    hide Formats, Format, Reread, Written;
    RereadConcat(u, [Format(p[i])] + v);
    RereadCons(Format(p[i]), v);
    RereadConcat(u, v);
    WrittenIs(p);
    WrittenIs(Without(p, i));
  }

  lemma FormatsConcat(a: seq<Pair>, b: seq<Pair>)
    ensures Formats(a + b) == Formats(a) + Formats(b)
  {
    hide Format;
  }

  lemma OneFormat(p: Pair)
    ensures Formats([p]) == [Format(p)]
  {
    hide Format;
  }

  lemma WrittenIs(p: seq<Pair>)
    ensures Written(p) == Reread(Formats(p))
  {
  }

  // ------------------------------------------------------------------------------------------------
  // Edits of two sections
  // ------------------------------------------------------------------------------------------------

  lemma Assoc3<T>(a: seq<T>, b: seq<T>, c: seq<T>, d: seq<T>)
    ensures a + (b + c + d) == a + b + c + d
  {
  }

  lemma HeadersDiffer(a: string, b: string)
    requires a != b
    ensures Header(a) != Header(b)
  {
    assert Header(a)[1..|a| + 1] == a && Header(b)[1..|b| + 1] == b;
  }

  lemma SetIs(content: string, section: string, p: seq<Pair>)
    requires Has(SplitLines(content), section)
    ensures SetSection(content, section, p) == Ok(Text(EditLines(SplitLines(content), section, p)))
  {
  }

  /** What lies between two sections, up to the header of the second. */
  lemma Middle(lines: Lines, a: string, b: string, top: Lines, one: Lines, post: Lines,
               low: Lines, two: Lines, rest: Lines) returns (mid: Lines)
    requires Parts(lines, a, top, one, post) && Parts(lines, b, low, two, rest) && |top| < |low|
    ensures mid != [] && low == top + one + mid && post == mid + two + rest
  {
    Slices(top, one, post);
    Slices(low, two, rest);
    Elements(top, one, post);
    Elements(low, two, rest);
    assert Opens(lines[|low| - 1]);
    assert |top| + |one| < |low|;
    mid := lines[|top| + |one|..|low|];
    hide Opens, Header;
    assert low == lines[..|low|];
    assert post == lines[|top| + |one|..];
    assert top + one == lines[..|top| + |one|];
  }

  lemma AllClean(lines: Lines, top: Lines, one: Lines, mid: Lines, two: Lines, rest: Lines)
    requires lines == top + one + mid + two + rest && forall i :: 0 <= i < |lines| ==> NoBreak(lines[i])
    ensures Clean(top) && Clean(one) && Clean(mid) && Clean(two) && Clean(rest)
  {
    hide NoBreak;
    CleanParts(top + one + mid, two, rest);
    CleanParts(top, one, mid);
  }

  lemma RestStays(lines: Lines, a: string, top: Lines, one: Lines, mid: Lines, two: Lines,
                  r: Lines, rest: Lines)
    requires Parts(lines, a, top, one, mid + two + rest) && mid != []
    ensures Parts(top + one + (mid + r + rest), a, top, one, mid + r + rest)
  {
    hide Opens, Header, Closed;
    assert (mid + two + rest)[0] == mid[0] == (mid + r + rest)[0];
  }

  /** Other lines in front, without the header, move the section. */
  lemma FirstMoves(top: Lines, one: Lines, e: Lines, mid: Lines, b: string, two: Lines, rest: Lines)
    requires Parts(top + one + mid + two + rest, b, top + one + mid, two, rest) && mid != [] && Header(b) !in e
    ensures Parts(top + e + mid + two + rest, b, top + e + mid, two, rest)
  {
    var was, now := top + one + mid, top + e + mid;
    hide Opens, Header;
    forall k | 0 <= k < |now| - 1
      ensures now[k] != Header(b)
    {
      if k < |top| {
        assert now[k] == was[k];
      } else if k < |top| + |e| {
        assert now[k] == e[k - |top|];
      } else {
        assert now[k] == was[k - |e| + |one|];
      }
    }
    assert now[|now| - 1] == mid[|mid| - 1] == was[|was| - 1];
  }

  /** The content as two sections and what is around them: `mid` ends with the header of the second. */
  ghost predicate Two(content: string, a: string, b: string, top: Lines, one: Lines, mid: Lines,
                      two: Lines, rest: Lines) {
    Parts(SplitLines(content), a, top, one, mid + two + rest) &&
    Parts(SplitLines(content), b, top + one + mid, two, rest) &&
    mid != [] && Clean(top) && Clean(one) && Clean(mid) && Clean(two) && Clean(rest)
  }

  lemma TwoAre(content: string, a: string, b: string)
      returns (top: Lines, one: Lines, mid: Lines, two: Lines, rest: Lines)
    requires Has(SplitLines(content), a) && Has(SplitLines(content), b)
    requires StartOf(SplitLines(content), Header(a)) < StartOf(SplitLines(content), Header(b))
    ensures Two(content, a, b, top, one, mid, two, rest)
  {
    hide *;
    var lines := SplitLines(content);
    var post, low: Lines;
    top, one, post := PartsAre(lines, a);
    low, two, rest := PartsAre(lines, b);
    PartsConcat(lines, a, top, one, post);
    PartsConcat(lines, b, low, two, rest);
    PartsIndex(lines, a, top, one, post);
    PartsIndex(lines, b, low, two, rest);
    mid := Middle(lines, a, b, top, one, post, low, two, rest);
    SplitNoBreak(content);
    AllClean(lines, top, one, mid, two, rest);
    TwoIs(content, a, b, top, one, mid, two, rest);
  }

  lemma TwoIs(content: string, a: string, b: string, top: Lines, one: Lines, mid: Lines,
              two: Lines, rest: Lines)
    requires Parts(SplitLines(content), a, top, one, mid + two + rest)
    requires Parts(SplitLines(content), b, top + one + mid, two, rest)
    requires mid != [] && Clean(top) && Clean(one) && Clean(mid) && Clean(two) && Clean(rest)
    ensures Two(content, a, b, top, one, mid, two, rest)
  {
  }

  /** The text of the first section edited first, when the second is found where it was or nothing is set. */
  lemma EditSecond(content: string, a: string, b: string, p: seq<Pair>, q: seq<Pair>,
                   top: Lines, one: Lines, mid: Lines, two: Lines, rest: Lines)
    requires Two(content, a, b, top, one, mid, two, rest) && (q == [] || Header(b) !in Written(p))
    ensures SetSection(content, a, p).Ok?
    ensures SetSection(SetSection(content, a, p).text, b, q) ==
            Ok(Text(top + Reread(EditBody(one, p)) + mid + EditBody(two, q) + rest))
  {
    TwoParts(content, a, b, top, one, mid, two, rest);
    hide *;
    PartsConcat(SplitLines(content), a, top, one, mid + two + rest);
    PartsConcat(SplitLines(content), b, top + one + mid, two, rest);
    var again := EditAgain(content, a, p, top, one, mid + two + rest);
    var r := Reread(EditBody(one, p));
    Assoc3(top + r, mid, two, rest);
    HeaderOpens(b);
    OpenerInEdit(one, p, Header(b));
    if Header(b) !in Written(p) {
      FirstMoves(top, one, r, mid, b, two, rest);
      EditParts(again, b, top + r + mid, two, rest, q);
    } else {
      HeaderStays(top, r, mid, two, rest, b);
      EditNothing(again, b);
      NothingEdited(two);
    }
    SetIs(SetSection(content, a, p).text, b, q);
  }

  lemma TwoParts(content: string, a: string, b: string, top: Lines, one: Lines, mid: Lines,
                 two: Lines, rest: Lines)
    requires Two(content, a, b, top, one, mid, two, rest)
    ensures Parts(SplitLines(content), a, top, one, mid + two + rest)
    ensures Parts(SplitLines(content), b, top + one + mid, two, rest)
    ensures mid != [] && Clean(top) && Clean(one) && Clean(mid) && Clean(two) && Clean(rest)
    ensures mid[|mid| - 1] == Header(b)
  {
    hide Closed, Clean, Header, Opens;
    assert (top + one + mid)[|top + one + mid| - 1] == mid[|mid| - 1];
  }

  lemma HeaderOpens(b: string)
    ensures Opens(Header(b))
  {
  }

  lemma HeaderStays(top: Lines, r: Lines, mid: Lines, two: Lines, rest: Lines, b: string)
    requires mid != [] && mid[|mid| - 1] == Header(b)
    ensures Has(top + r + mid + two + rest, b)
  {
    var lines, n := top + r + mid + two + rest, |top| + |r| + |mid| - 1;
    hide Header;
    assert lines[n] == Header(b);
  }

  lemma {:induction false} NothingEdited(b: Lines)
    ensures EditBody(b, []) == b
    decreases |b|
  {
    if b != [] {
      NothingEdited(b[1..]);
      assert [b[0]] + b[1..] == b;
    }
  }

  lemma EditNothing(lines: Lines, b: string)
    requires Has(lines, b)
    ensures EditLines(lines, b, []) == lines
  {
    var n := StartOf(lines, Header(b)) + 1;
    NothingEdited(lines[n..EndOf(lines, n)]);
    hide EditBody;
  }

  /** The text of the second section edited first. */
  lemma EditFirst(content: string, a: string, b: string, p: seq<Pair>, q: seq<Pair>,
                  top: Lines, one: Lines, mid: Lines, two: Lines, rest: Lines)
    requires Two(content, a, b, top, one, mid, two, rest)
    ensures SetSection(content, b, q).Ok?
    ensures SetSection(SetSection(content, b, q).text, a, p) ==
            Ok(Text(top + EditBody(one, p) + mid + Reread(EditBody(two, q)) + rest))
  {
    TwoParts(content, a, b, top, one, mid, two, rest);
    hide *;
    PartsConcat(SplitLines(content), a, top, one, mid + two + rest);
    PartsConcat(SplitLines(content), b, top + one + mid, two, rest);
    var again := EditAgain(content, b, q, top + one + mid, two, rest);
    var r := Reread(EditBody(two, q));
    Assoc3(top + one, mid, r, rest);
    RestStays(SplitLines(content), a, top, one, mid, two, r, rest);
    EditParts(again, a, top, one, mid + r + rest, p);
    SetIs(SetSection(content, b, q).text, a, p);
    Assoc3(top + EditBody(one, p), mid, r, rest);
  }

  lemma FiveTexts(a: Lines, b: Lines, c: Lines, d: Lines, e: Lines)
    ensures Text(a + b + c + d + e) == Text(a) + Text(b) + Text(c) + Text(d) + Text(e)
  {
    TextConcat(a + b + c + d, e);
    TextConcat(a + b + c, d);
    TextConcat(a + b, c);
    TextConcat(a, b);
  }

  /** Of two edited sections each order reads one again; the texts are the same exactly when reading again
      changes neither. */
  lemma SameTexts(top: Lines, e: Lines, mid: Lines, f: Lines, rest: Lines)
    ensures Text(top + Reread(e) + mid + f + rest) == Text(top + e + mid + Reread(f) + rest) <==>
            NewlineOnly(Text(e)) && NewlineOnly(Text(f))
  {
    FiveTexts(top, Reread(e), mid, f, rest);
    FiveTexts(top, e, mid, Reread(f), rest);
    var x, y := Text(e), Text(f);
    TextEnds(e);
    TextEnds(f);
    NothingJoined(e);
    NothingJoined(f);
    var k := FirstChange(x);
    var l := FirstChange(y);
    hide Text, SplitLines, NewlineOnly;
    Differ(Text(top), Text(Reread(e)), Text(mid), y, Text(rest), x, Text(Reread(f)), k);
    if NewlineOnly(x) {
      DifferLater(Text(top), x, Text(mid), y, Text(rest), Text(Reread(f)), l);
    }
  }

  lemma NothingJoined(e: Lines)
    ensures e == [] ==> Text(e) == []
  {
  }

  lemma Differ(t: string, u: string, m: string, y: string, r: string, x: string, v: string, k: nat)
    ensures k < |u| && k < |x| && u[k] != x[k] ==> t + u + m + y + r != t + x + m + v + r
  {
    if k < |u| && k < |x| {
      assert (t + u + m + y + r)[|t| + k] == u[k];
      assert (t + x + m + v + r)[|t| + k] == x[k];
    }
  }

  lemma DifferLater(t: string, x: string, m: string, y: string, r: string, v: string, k: nat)
    ensures k < |y| && k < |v| && y[k] != v[k] ==> t + x + m + y + r != t + x + m + v + r
  {
    if k < |y| && k < |v| {
      assert (t + x + m + y + r)[|t + x + m| + k] == y[k];
      assert (t + x + m + v + r)[|t + x + m| + k] == v[k];
    }
  }

  /** Edits of two sections, of any keys and values: unless the first brings in a header of the second, and the
      second then sets something, the two orders give one text exactly when newlines are the only line breaks
      in keys and values. */
  lemma EditsCommuteIff(content: string, a: string, b: string, p: seq<Pair>, q: seq<Pair>)
    requires Has(SplitLines(content), a) && Has(SplitLines(content), b)
    requires StartOf(SplitLines(content), Header(a)) < StartOf(SplitLines(content), Header(b))
    requires q == [] || Header(b) !in Written(p)
    ensures var first, second := SetSection(content, a, p), SetSection(content, b, q);
            first.Ok? && second.Ok? && SetSection(first.text, b, q).Ok? && SetSection(second.text, a, p).Ok? &&
            (SetSection(first.text, b, q) == SetSection(second.text, a, p) <==> NewlinesOnly(p) && NewlinesOnly(q))
  {
    hide *;
    var top, one, mid, two, rest := TwoAre(content, a, b);
    EditSecond(content, a, b, p, q, top, one, mid, two, rest);
    EditFirst(content, a, b, p, q, top, one, mid, two, rest);
    TwoParts(content, a, b, top, one, mid, two, rest);
    SameTexts(top, EditBody(one, p), mid, EditBody(two, q), rest);
    EditNewlineOnly(one, p);
    EditNewlineOnly(two, q);
  }

  /** When nothing that is written opens a section, the edited section stays closed. */
  lemma EditStaysClosed(b: Lines, q: seq<Pair>)
    requires Clean(b) && Closed(b) && Closed(Written(q))
    ensures Closed(Reread(EditBody(b, q)))
  {
    hide EditBody, Reread, Written, Opens;
    forall h | Opens(h)
      ensures h !in Reread(EditBody(b, q))
    {
      OpenerInEdit(b, q, h);
    }
  }

  /** The section brought in ends before the second section starts. */
  lemma InjectedPlace(top: Lines, r: Lines, mid: Lines, two: Lines, rest: Lines, b: string,
                      lines: Lines, pre: Lines, body: Lines, post: Lines) returns (w: Lines)
    requires lines == top + r + mid + two + rest && Parts(lines, b, pre, body, post)
    requires mid != [] && mid[|mid| - 1] == Header(b) && Header(b) in r
    ensures top + r + mid == pre + body + w && w != [] && Opens(w[0]) && post == w + two + rest
  {
    PartsIndex(lines, b, pre, body, post);
    HeaderOpens(b);
    assert lines == pre + body + post && (post != [] ==> Opens(post[0]));
    var x, n := top + r + mid, |pre| + |body|;
    var j :| 0 <= j < |r| && r[j] == Header(b);
    hide Header, Opens, Parts;
    assert lines[|top| + j] == Header(b) && lines[|x| - 1] == Header(b);
    assert |pre| - 1 <= |top| + j;
    assert n <= |x| - 1;
    w := x[n..];
    hide StartOf, EndOf;
    assert lines == x + (two + rest);
    TakeAndDrop(pre + body, post, x, two + rest);
    assert post == w + two + rest;
  }

  lemma TakeAndDrop<T>(a: seq<T>, b: seq<T>, x: seq<T>, y: seq<T>)
    requires a + b == x + y && |a| < |x|
    ensures x == a + x[|a|..] && b == x[|a|..] + y && x[|a|..] != [] && b != [] && b[0] == x[|a|..][0]
  {
    assert x == (x + y)[..|x|] && a == (a + b)[..|a|];
    assert b == (a + b)[|a|..];
  }

  /** Lines of closed sections in front of a header can be told apart. */
  lemma ClosedDecide(g: Lines, w: Lines, two: Lines, body: Lines, s: Lines)
    requires Closed(g) && Closed(body) && w != [] && Opens(w[0]) && g + w + two == body + w + s
    ensures g == body && two == s
  {
    hide Opens;
    var l := g + w + two;
    assert l[|g|] == w[0] && l[|body|] == w[0];
    assert forall k :: 0 <= k < |g| ==> l[k] == g[k];
    assert forall k :: 0 <= k < |body| ==> l[k] == body[k];
    assert |g| == |body|;
    assert g == l[..|g|] && body == l[..|g|];
    assert two == l[|g| + |w|..] && s == l[|g| + |w|..];
  }

  lemma NormalText(e: Lines)
    requires NewlineOnly(Text(e))
    ensures Text(Reread(e)) == Text(e)
  {
    TextEnds(e);
    NothingJoined(e);
    var k := FirstChange(Text(e));
  }

  lemma ThreeTexts(a: Lines, b: Lines, c: Lines)
    ensures Text(a + b + c) == Text(a) + Text(b) + Text(c)
  {
    TextConcat(a + b, c);
    TextConcat(a, b);
  }

  lemma SameMiddle(a: string, b: string, b': string, c: string)
    ensures a + b + c == a + b' + c <==> b == b'
  {
    if a + b + c == a + b' + c {
      assert b == (a + b + c)[|a|..|a| + |b|];
      assert b' == (a + b' + c)[|a|..|a| + |b'|];
      assert |b| == |b'|;
    }
  }

  /** Both orders, when the second edit finds the section that was brought in: `g` is what it makes of it, `f`
      what it makes of the section itself. */
  lemma InjectedTexts(top: Lines, e: Lines, mid: Lines, two: Lines, f: Lines, rest: Lines,
                      b: string, lines: Lines, pre: Lines, body: Lines, g: Lines, post: Lines)
    requires NewlineOnly(Text(e)) && NewlineOnly(Text(f)) && NewlineOnly(Text(g))
    requires lines == top + Reread(e) + mid + two + rest && Parts(lines, b, pre, body, post)
    requires mid != [] && mid[|mid| - 1] == Header(b) && Header(b) in Reread(e)
    requires Closed(Reread(g)) && Clean(lines)
    ensures Text(pre + g + post) == Text(top + e + mid + Reread(f) + rest) <==>
            Text(g) == Text(body) && Text(f) == Text(two)
  {
    hide *;
    var r, s, c := Reread(e), Reread(f), Reread(g);
    NormalText(e);
    NormalText(f);
    NormalText(g);
    PartsConcat(lines, b, pre, body, post);
    SwapMiddle(pre, g, c, post);
    SwapTwo(top, e, r, mid, s, s, rest);
    if Text(g) == Text(body) && Text(f) == Text(two) {
      SwapMiddle(pre, g, body, post);
      SwapTwo(top, r, r, mid, s, two, rest);
    }
    if Text(pre + c + post) == Text(top + r + mid + s + rest) {
      SplitNoBreak(Text(g));
      SplitNoBreak(Text(f));
      RereadIs(f);
      RereadIs(g);
      CleanIs(c);
      CleanIs(s);
      InjectedLines(top, r, mid, two, s, rest, b, lines, pre, body, c, post);
    }
  }

  lemma SwapMiddle(a: Lines, b: Lines, b': Lines, c: Lines)
    requires Text(b) == Text(b')
    ensures Text(a + b + c) == Text(a + b' + c)
  {
    hide *;
    ThreeTexts(a, b, c);
    ThreeTexts(a, b', c);
  }

  lemma SwapTwo(a: Lines, b: Lines, b': Lines, c: Lines, d: Lines, d': Lines, e: Lines)
    requires Text(b) == Text(b') && Text(d) == Text(d')
    ensures Text(a + b + c + d + e) == Text(a + b' + c + d' + e)
  {
    hide *;
    FiveTexts(a, b, c, d, e);
    FiveTexts(a, b', c, d', e);
  }

  /** One text of clean lines: its lines decide. */
  lemma InjectedLines(top: Lines, r: Lines, mid: Lines, two: Lines, s: Lines, rest: Lines,
                      b: string, lines: Lines, pre: Lines, body: Lines, c: Lines, post: Lines)
    requires lines == top + r + mid + two + rest && Parts(lines, b, pre, body, post) && Clean(lines)
    requires mid != [] && mid[|mid| - 1] == Header(b) && Header(b) in r
    requires Clean(c) && Clean(s) && Closed(c) && Text(pre + c + post) == Text(top + r + mid + s + rest)
    ensures c == body && two == s
  {
    hide *;
    PartsConcat(lines, b, pre, body, post);
    CleanParts(top + r + mid, two, rest);
    CleanParts(pre, body, post);
    RereadParts(top + r + mid, s, rest);
    RereadParts(pre, c, post);
    CleanIs(c);
    CleanIs(s);
    RereadSame(c);
    RereadSame(s);
    RereadIs(pre + c + post);
    RereadIs(top + r + mid + s + rest);
    var w := InjectedPlace(top, r, mid, two, rest, b, lines, pre, body, post);
    Shuffle(pre, c, w, two, rest, body, s);
    ClosedDecide(c, w, two, body, s);
  }

  lemma RereadIs(l: Lines)
    ensures Reread(l) == SplitLines(Text(l))
  {
  }

  lemma CleanIs(l: Lines)
    ensures Clean(l) <==> forall i :: 0 <= i < |l| ==> NoBreak(l[i])
  {
  }

  lemma Shuffle<T>(pre: seq<T>, c: seq<T>, w: seq<T>, two: seq<T>, rest: seq<T>, body: seq<T>, s: seq<T>)
    ensures pre + c + (w + two + rest) == (pre + body + w) + s + rest ==> c + w + two == body + w + s
  {
    if pre + c + (w + two + rest) == (pre + body + w) + s + rest {
      var l := pre + c + (w + two + rest);
      assert |c + w + two| == |body + w + s|;
      assert c + w + two == l[|pre|..|l| - |rest|];
      assert body + w + s == ((pre + body + w) + s + rest)[|pre|..|l| - |rest|];
    }
  }

  /** The first edit brings in a header of the second section. When newlines are the only line breaks, and the
      second edit brings in no header, the orders agree exactly when the second edit has nothing to change: not
      in the section that was brought in, and not in the section itself. */
  lemma InjectedHeaderIff(content: string, a: string, b: string, p: seq<Pair>, q: seq<Pair>)
    requires Has(SplitLines(content), a) && Has(SplitLines(content), b)
    requires StartOf(SplitLines(content), Header(a)) < StartOf(SplitLines(content), Header(b))
    requires Header(b) in Written(p) && Closed(Written(q)) && NewlinesOnly(p) && NewlinesOnly(q)
    ensures var first, second := SetSection(content, a, p), SetSection(content, b, q);
            first.Ok? && second.Ok? && SetSection(first.text, b, q).Ok? && SetSection(second.text, a, p).Ok? &&
            (SetSection(first.text, b, q) == SetSection(second.text, a, p) <==>
             SetSection(first.text, b, q) == first && second == Ok(Text(SplitLines(content))))
  {
    hide *;
    var top, one, mid, two, rest := TwoAre(content, a, b);
    TwoParts(content, a, b, top, one, mid, two, rest);
    EditFirst(content, a, b, p, q, top, one, mid, two, rest);
    var e, f := EditBody(one, p), EditBody(two, q);
    PartsConcat(SplitLines(content), a, top, one, mid + two + rest);
    PartsConcat(SplitLines(content), b, top + one + mid, two, rest);
    var again := EditAgain(content, a, p, top, one, mid + two + rest);
    var whole := EditAgain(content, b, q, top + one + mid, two, rest);
    HeaderStays(top, Reread(e), mid, two, rest, b);
    Assoc3(top + Reread(e), mid, two, rest);
    var pre, body, post := PartsAre(again, b);
    EditParts(again, b, pre, body, post, q);
    SetIs(SetSection(content, a, p).text, b, q);
    SplitNoBreak(Text(top + e + (mid + two + rest)));
    PartsConcat(again, b, pre, body, post);
    CleanParts(pre, body, post);
    EditNewlineOnly(one, p);
    EditNewlineOnly(two, q);
    EditNewlineOnly(body, q);
    EditStaysClosed(two, q);
    EditStaysClosed(body, q);
    HeaderOpens(b);
    OpenerInEdit(one, p, Header(b));
    CleanIs(again);
    InjectedTexts(top, e, mid, two, f, rest, b, again, pre, body, EditBody(body, q), post);
    NormalText(e);
    ThreeTexts(pre, EditBody(body, q), post);
    ThreeTexts(pre, body, post);
    ThreeTexts(top, e, mid + two + rest);
    ThreeTexts(top, Reread(e), mid + two + rest);
    ThreeTexts(top + one + mid, f, rest);
    ThreeTexts(top + one + mid, two, rest);
    SameMiddle(Text(pre), Text(EditBody(body, q)), Text(body), Text(post));
    SameMiddle(Text(top + one + mid), Text(f), Text(two), Text(rest));
  }

  /** A value of a line and then the header of the second section: whatever the second edit sets, if it sets
      anything anew, the order matters. */
  lemma InjectedHeaderDoesNotCommute(content: string, a: string, b: string, q: seq<Pair>)
    requires Has(SplitLines(content), a) && Has(SplitLines(content), b)
    requires StartOf(SplitLines(content), Header(a)) < StartOf(SplitLines(content), Header(b))
    requires Closed(Written(q)) && NewlinesOnly(q) && SetSection(content, b, q) != Ok(Text(SplitLines(content)))
    ensures var p := [Pair("k", "1\n" + Header(b))];
            var first, second := SetSection(content, a, p), SetSection(content, b, q);
            first.Ok? && second.Ok? && SetSection(first.text, b, q) != SetSection(second.text, a, p)
  {
    var p := [Pair("k", "1\n" + Header(b))];
    HeaderIsLine(content, b);
    HeaderIsWritten(b);
    hide *;
    InjectedHeaderIff(content, a, b, p, q);
  }

  lemma HeaderIsLine(content: string, b: string)
    requires Has(SplitLines(content), b)
    ensures NoBreak(Header(b))
  {
    SplitNoBreak(content);
    hide SplitLines, NoBreak, Header;
    assert SplitLines(content)[StartOf(SplitLines(content), Header(b))] == Header(b);
  }

  lemma HeaderIsWritten(b: string)
    requires NoBreak(Header(b))
    ensures var p := [Pair("k", "1\n" + Header(b))]; Header(b) in Written(p) && NewlinesOnly(p)
  {
    var p := [Pair("k", "1\n" + Header(b))];
    assert NewlineOnly("k") && NewlineOnly("1\n") && NewlineOnly(Header(b));
    NewlineOnlyConcat("1\n", Header(b));
    var front := Padded("k") + "= 1\n";
    assert Format(p[0]) == front + Header(b);
    FormatsCons(p);
    assert Formats(p) == [Format(p[0])];
    hide Header, NewlineOnly, Padded, Format, SplitLines, NoBreak, Written, Reread;
    RereadCons(Format(p[0]), []);
    assert [Format(p[0])] + [] == Formats(p);
    assert front + Header(b) + "\n" == front + (Header(b) + "\n");
    SplitAppend(front, Header(b) + "\n");
    OneLine(Header(b));
    WrittenIs(p);
  }

  /** Identifier keys and values without line breaks: the edits of two sections can be made in either order. */
  lemma EditsCommute(content: string, a: string, b: string, p: seq<Pair>, q: seq<Pair>)
    requires a != b && LineFree(p) && LineFree(q)
    requires Has(SplitLines(content), a) && Has(SplitLines(content), b)
    ensures var first, second := SetSection(content, a, p), SetSection(content, b, q);
            first.Ok? && second.Ok? && SetSection(first.text, b, q).Ok? &&
            SetSection(first.text, b, q) == SetSection(second.text, a, p)
  {
    HeadersDiffer(a, b);
    StartsDiffer(SplitLines(content), Header(a), Header(b));
    LineFreeWrites(p, Header(b));
    LineFreeWrites(q, Header(a));
    hide *;
    HeaderOpens(a);
    HeaderOpens(b);
    if StartOf(SplitLines(content), Header(a)) < StartOf(SplitLines(content), Header(b)) {
      EditsCommuteIff(content, a, b, p, q);
    } else {
      EditsCommuteIff(content, b, a, q, p);
    }
  }

  lemma StartsDiffer(lines: Lines, g: string, h: string)
    requires g != h && StartOf(lines, g) < |lines| && StartOf(lines, h) < |lines|
    ensures StartOf(lines, g) != StartOf(lines, h)
  {
  }

  predicate LineFree(p: seq<Pair>) { forall i :: 0 <= i < |p| ==> Identifier(p[i].key) && NoBreak(p[i].value) }

  lemma LineFreeWrites(p: seq<Pair>, h: string)
    requires LineFree(p)
    ensures NewlinesOnly(p) && (Opens(h) ==> h !in Written(p))
  {
    forall i | 0 <= i < |p|
      ensures NoBreak(Format(p[i])) && !Opens(Format(p[i])) && NewlineOnly(p[i].key) && NewlineOnly(p[i].value)
    {
      FormatIsClean(p[i]);
      IdentifierHasNoBreak(p[i].key);
    }
    hide Format, NoBreak, Opens, NewlineOnly, Identifier;
    RereadSame(Formats(p));
  }

  lemma IdentifierHasNoBreak(key: string)
    requires Identifier(key)
    ensures NewlineOnly(key)
  {
    forall k | 0 <= k < |key|
      ensures !IsBreak(key[k])
    {
      WordsDoNotBreak(key[k]);
    }
  }

  lemma FormatIsClean(p: Pair)
    requires Identifier(p.key) && NoBreak(p.value)
    ensures NoBreak(Format(p)) && !Opens(Format(p))
  {
    PaddedNoBreak(p.key);
    WordsDoNotBreak(p.key[0]);
    assert Format(p)[0] == p.key[0];
    hide IsBreak, Padded;
  }

  // ------------------------------------------------------------------------------------------------
  // Inputs at which the edits fail
  // ------------------------------------------------------------------------------------------------

  /** A value of two lines leaves its second line behind when it is set again. */
  lemma TwoLineValueIsNotIdempotent()
    ensures var p := [Pair("k", "1\n2")];
            var once := SetSection("[a]\n", "a", p);
            once.Ok? && SetSection(once.text, "a", p) != once
  {
    var p := [Pair("k", "1\n2")];
    OneSection();
    NewlineSplits(p[0].value, 1);
    IdempotentIff("[a]\n", "a", p);
  }

  /** A key with a dash is not found again, and its line is added a second time. */
  lemma DashedKeyIsNotIdempotent()
    ensures var p := [Pair("a-b", "1")];
            var once := SetSection("[a]\n", "a", p);
            once.Ok? && SetSection(once.text, "a", p) != once
  {
    var p := [Pair("a-b", "1")];
    OneSection();
    assert !IsWord(p[0].key[1]);
    IdempotentIff("[a]\n", "a", p);
  }

  lemma OneSection()
    ensures SplitLines("[a]\n") == ["[a]"] && Has(SplitLines("[a]\n"), "a")
  {
    OneLine("[a]");
    assert "[a]" + "\n" == "[a]\n";
    assert Header("a") == "[a]";
  }

  lemma NewlineSplits(v: string, k: nat)
    requires k < |v| && v[k] == '\n'
    ensures |SplitLines(v + "\n")| >= 2
  {
    hide *;
    var x, y := v[..k + 1], v[k + 1..] + "\n";
    SomeLine(x);
    SomeLine(y);
    SplitAppend(x, y);
    Around(v, k + 1, "\n");
  }

  lemma SomeLine(t: string)
    requires t != []
    ensures |SplitLines(t)| >= 1
  {
  }

  lemma Around<T>(v: seq<T>, n: nat, w: seq<T>)
    requires n <= |v|
    ensures v[..n] + (v[n..] + w) == v + w
  {
  }

  /** In a text with two sections, whatever else it holds, a value that ends in a carriage return makes the two
      orders differ: the return stays only when its section is edited last. */
  lemma CarriageReturnDoesNotCommute(content: string, a: string, b: string)
    requires a != b && Has(SplitLines(content), a) && Has(SplitLines(content), b)
    ensures var p := [Pair("k", "1\r")];
            var first, second := SetSection(content, a, p), SetSection(content, b, []);
            first.Ok? && second.Ok? && SetSection(first.text, b, []) != SetSection(second.text, a, p)
  {
    var p := [Pair("k", "1\r")];
    assert IsBreak(p[0].value[1]) && !NewlinesOnly(p);
    HeadersDiffer(a, b);
    StartsDiffer(SplitLines(content), Header(a), Header(b));
    NothingReread();
    assert Formats([]) == [] && Header(a) !in Written([]);
    hide *;
    if StartOf(SplitLines(content), Header(a)) < StartOf(SplitLines(content), Header(b)) {
      EditsCommuteIff(content, a, b, p, []);
    } else {
      EditsCommuteIff(content, b, a, [], p);
    }
  }

  // ------------------------------------------------------------------------------------------------
  // What a key is set to
  // ------------------------------------------------------------------------------------------------

  /** The first line of a section that has a key. */
  function FirstWith(b: Lines, key: string): Option<string> {
    if b == [] then None
    else if KeyOf(b[0]) == Some(key) then Some(b[0])
    else FirstWith(b[1..], key)
  }

  lemma FirstWithCons(line: string, rest: Lines, key: string)
    ensures FirstWith([line] + rest, key) == if KeyOf(line) == Some(key) then Some(line) else FirstWith(rest, key)
  {
    assert ([line] + rest)[1..] == rest;
  }

  lemma WithoutIndex(p: seq<Pair>, i: nat, key: string)
    requires i < |p| && DistinctKeys(p)
    ensures var j := IndexOf(p, key);
            if j == i then IndexOf(Without(p, i), key) == |p| - 1
            else IndexOf(Without(p, i), key) == if j < i then j else j - 1
  {
    hide IndexOf;
    var w := Without(p, i);
    var j := IndexOf(p, key);
    assert forall k :: 0 <= k < |w| ==> w[k] == p[if k < i then k else k + 1];
    IndexIs(w, key, if j == i then |w| else if j < i then j else j - 1);
  }

  lemma IndexIs(p: seq<Pair>, key: string, n: nat)
    requires n <= |p| && (n < |p| ==> p[n].key == key) && forall j :: 0 <= j < n ==> p[j].key != key
    ensures IndexOf(p, key) == n
  {
    var m := IndexOf(p, key);
    hide IndexOf;
    assert m < |p| ==> p[m].key == key;
    assert n < |p| ==> p[n].key == key;
  }

  /** After the edit each given key has its new value, and every other key has the line it had. */
  lemma {:induction false} EditSets(b: Lines, p: seq<Pair>, key: string)
    requires DistinctKeys(p) && forall i :: 0 <= i < |p| ==> Identifier(p[i].key)
    ensures var i := IndexOf(p, key);
            FirstWith(EditBody(b, p), key) == if i < |p| then Some(Format(p[i])) else FirstWith(b, key)
    decreases |b| + |p|
  {
    hide KeyOf, Format, Identifier, DistinctKeys, IndexOf, Hit;
    if b == [] {
      if p != [] {
        FormatsCons(p);
        EditSetsFirst([], p, 0, key);
        EditSets([], Without(p, 0), key);
      }
    } else {
      var i := Hit(b[0], p);
      if i < |p| {
        EditSetsFirst(b[1..], p, i, key);
        EditSets(b[1..], Without(p, i), key);
      } else {
        FirstWithCons(b[0], EditBody(b[1..], p), key);
        EditSets(b[1..], p, key);
        MissIs(b[0], p, key);
      }
    }
  }

  lemma MissIs(line: string, p: seq<Pair>, key: string)
    requires Hit(line, p) == |p|
    ensures IndexOf(p, key) < |p| ==> KeyOf(line) != Some(key)
  {
    hide KeyOf;
  }

  lemma EditSetsFirst(rest: Lines, p: seq<Pair>, i: nat, key: string)
    requires DistinctKeys(p) && i < |p| && forall j :: 0 <= j < |p| ==> Identifier(p[j].key)
    ensures DistinctKeys(Without(p, i)) && forall j :: 0 <= j < |p| - 1 ==> Identifier(Without(p, i)[j].key)
    ensures FirstWith([Format(p[i])] + EditBody(rest, Without(p, i)), key) ==
            if p[i].key == key then Some(Format(p[i])) else FirstWith(EditBody(rest, Without(p, i)), key)
    ensures p[i].key == key ==> IndexOf(p, key) == i
    ensures var j := IndexOf(p, key); var n := IndexOf(Without(p, i), key);
            p[i].key != key ==> (j < |p| <==> n < |p| - 1) && (j < |p| ==> Without(p, i)[n] == p[j])
  {
    hide KeyOf, EditBody, Identifier, Format, FirstWith;
    FormatKey(p[i]);
    FirstWithCons(Format(p[i]), EditBody(rest, Without(p, i)), key);
    WithoutKeeps(p, i);
    WithoutIndex(p, i, key);
    assert p[i].key == key ==> IndexOf(p, key) <= i;
  }

  lemma FormatKey(p: Pair)
    requires Identifier(p.key)
    ensures KeyOf(Format(p)) == Some(p.key)
  {
    FirstLine(p.key, p.value);
  }

  // ------------------------------------------------------------------------------------------------
  // The program
  // ------------------------------------------------------------------------------------------------

  /** The loop over the lines of the section: pending keys leave the list as they are found. */
  method ReplaceLines(body: Lines, values: seq<Pair>) returns (output: Lines)
    ensures output == EditBody(body, values)
  {
    hide *;
    var pending := values;
    output := [];
    Whole(body);
    for n := 0 to |body|
      invariant EditBody(body, values) == output + EditBody(body[n..], pending)
    {
      var i := Hit(body[n], pending);
      var line := if i < |pending| then Format(pending[i]) else body[n];
      var left := if i < |pending| then Without(pending, i) else pending;
      EditStep(body, n, pending, i, line, left);
      Assoc(output, [line], EditBody(body[n + 1..], left));
      output := output + [line];
      pending := left;
    }
    EditEnd(body, pending);
    output := output + Formats(pending);
  }

  lemma Whole<T>(s: seq<T>)
    ensures s[0..] == s && forall t: seq<T> :: [] + t == t
  {
  }

  lemma EditStep(body: Lines, n: nat, p: seq<Pair>, i: nat, line: string, left: seq<Pair>)
    requires n < |body| && i == Hit(body[n], p)
    requires if i < |p| then line == Format(p[i]) && left == Without(p, i) else line == body[n] && left == p
    ensures EditBody(body[n..], p) == [line] + EditBody(body[n + 1..], left)
  {
    hide *;
    assert body[n..] == [body[n]] + body[n + 1..];
    EditCons(body[n], body[n + 1..], p, i);
  }

  lemma EditEnd(body: Lines, p: seq<Pair>)
    ensures EditBody(body[|body|..], p) == Formats(p)
  {
  }

  /** set_section_values. */
  method SetSectionValues(content: string, section: string, values: seq<Pair>) returns (r: Result)
    ensures r == SetSection(content, section, values)
  {
    var lines := SplitLines(content);
    var header := Header(section);
    var start := FindHeader(lines, header);
    hide *;
    if start == |lines| {
      SetMissing(content, section, values);
      return MissingSection(header);
    }
    var end := FindEnd(lines, start + 1);
    EditAt(lines, section, values, start + 1, end);
    SetIs(content, section, values);
    var body := ReplaceLines(lines[start + 1..end], values);
    r := Ok(Text(lines[..start + 1] + body + lines[end..]));
  }

  lemma SetMissing(content: string, section: string, p: seq<Pair>)
    requires StartOf(SplitLines(content), Header(section)) == |SplitLines(content)|
    ensures SetSection(content, section, p) == MissingSection(Header(section))
  {
  }

  method FindHeader(lines: Lines, header: string) returns (start: nat)
    ensures start == StartOf(lines, header)
  {
    start := 0;
    while start < |lines| && lines[start] != header
      invariant start <= |lines| && forall k :: 0 <= k < start ==> lines[k] != header
    {
      start := start + 1;
    }
    assert StartOf(lines, header) >= start;
  }

  method FindEnd(lines: Lines, from: nat) returns (end: nat)
    requires from <= |lines|
    ensures end == EndOf(lines, from)
  {
    end := from;
    while end < |lines| && !Opens(lines[end])
      invariant from <= end <= |lines| && forall k :: from <= k < end ==> !Opens(lines[k])
    {
      end := end + 1;
    }
    EndIs(lines, from, end);
  }
}
