// The parts of Python's text handling that the config editor relies on.
module PythonText {
  /** What \s matches. */
  predicate IsSpace(c: char) {
    c == ' ' || '\U{0009}' <= c <= '\U{000D}' || '\U{001C}' <= c <= '\U{001F}' || c == '\U{0085}' || c == '\U{00A0}' ||
    c == '\U{1680}' || '\U{2000}' <= c <= '\U{200A}' || c == '\U{2028}' || c == '\U{2029}' || c == '\U{202F}' ||
    c == '\U{205F}' || c == '\U{3000}'
  }

  /** Where splitlines breaks. */
  predicate IsBreak(c: char) {
    '\U{000A}' <= c <= '\U{000D}' || '\U{001C}' <= c <= '\U{001E}' || c == '\U{0085}' || c == '\U{2028}' ||
      c == '\U{2029}'
  }

  predicate NoBreak(t: string) { forall i :: 0 <= i < |t| ==> !IsBreak(t[i]) }

  /** The end of the white space that starts at `i`. */
  function SkipSpaces(t: string, i: nat): (n: nat)
    requires i <= |t|
    ensures i <= n <= |t| && (n < |t| ==> !IsSpace(t[n])) && forall k :: i <= k < n ==> IsSpace(t[k])
    decreases |t| - i
  {
    if i == |t| || !IsSpace(t[i]) then i else SkipSpaces(t, i + 1)
  }

  lemma SkipSpacesIs(t: string, i: nat, n: nat)
    requires i <= n <= |t| && (n < |t| ==> !IsSpace(t[n])) && forall k :: i <= k < n ==> IsSpace(t[k])
    ensures SkipSpaces(t, i) == n
  {
    var m := SkipSpaces(t, i);
    hide IsSpace;
    assert m < |t| ==> !IsSpace(t[m]);
    assert n < |t| ==> !IsSpace(t[n]);
  }

  /** The first break at or after `i`, else the end. */
  function BreakAt(t: string, i: nat): (n: nat)
    requires i <= |t|
    ensures i <= n <= |t| && (n < |t| ==> IsBreak(t[n])) && forall k :: i <= k < n ==> !IsBreak(t[k])
    decreases |t| - i
  {
    if i == |t| || IsBreak(t[i]) then i else BreakAt(t, i + 1)
  }

  /** A carriage return and a newline together are one break. */
  function BreakWidth(t: string, n: nat): (w: nat)
    requires n < |t|
    ensures 1 <= w <= 2 && n + w <= |t|
  {
    if t[n] == '\r' && n + 1 < |t| && t[n + 1] == '\n' then 2 else 1
  }

  /** str.splitlines(). */
  function SplitLines(t: string): seq<string>
    decreases |t|
  {
    if t == [] then []
    else
      var n := BreakAt(t, 0);
      if n == |t| then [t] else [t[..n]] + SplitLines(t[n + BreakWidth(t, n)..])
  }

  /** "\n".join(lines) + "\n", of at least one line. */
  function Text(lines: seq<string>): string {
    if lines == [] then [] else lines[0] + "\n" + Text(lines[1..])
  }

  lemma Assoc<T>(a: seq<T>, b: seq<T>, c: seq<T>)
    ensures (a + b) + c == a + (b + c)
  {
  }

  lemma TailConcat<T>(a: seq<T>, b: seq<T>)
    requires a != []
    ensures (a + b)[1..] == a[1..] + b && (a + b)[0] == a[0] && a + b != []
  {
  }

  lemma Cut<T>(a: seq<T>, b: seq<T>, n: nat, m: nat)
    requires n <= m <= |a|
    ensures (a + b)[..n] == a[..n] && (a + b)[m..] == a[m..] + b
  {
  }

  lemma CutAfter<T>(a: seq<T>, b: seq<T>, n: nat, m: nat)
    requires n <= m <= |b|
    ensures (a + b)[..|a| + n] == a + b[..n] && (a + b)[|a| + m..] == b[m..]
  {
  }

  lemma BreakAtIs(t: string, n: nat)
    requires n <= |t| && (n < |t| ==> IsBreak(t[n])) && forall k :: 0 <= k < n ==> !IsBreak(t[k])
    ensures BreakAt(t, 0) == n
  {
    var m := BreakAt(t, 0);
    hide IsBreak;
    assert m < |t| ==> IsBreak(t[m]);
    assert n < |t| ==> IsBreak(t[n]);
  }

  lemma SplitIs(t: string, n: nat)
    requires n < |t| && IsBreak(t[n]) && forall k :: 0 <= k < n ==> !IsBreak(t[k])
    ensures SplitLines(t) == [t[..n]] + SplitLines(t[n + BreakWidth(t, n)..])
  {
    BreakAtIs(t, n);
    hide IsBreak, BreakWidth, BreakAt;
  }

  /** After a newline the splitting starts afresh. */
  lemma {:induction false} SplitAppend(x: string, y: string)
    requires x != [] && x[|x| - 1] == '\n'
    ensures SplitLines(x + y) == SplitLines(x) + SplitLines(y)
    decreases |x|
  {
    hide *;
    NewlineBreaks();
    var n := BreakAt(x, 0);
    assert n < |x|;
    var t := x + y;
    var w := BreakWidth(x, n);
    SplitIs(x, n);
    SplitIs(t, n);
    SameWidth(x, y, n);
    Cut(x, y, n, n + w);
    var rest := x[n + w..];
    if rest != [] {
      SplitAppend(rest, y);
      Assoc([x[..n]], SplitLines(rest), SplitLines(y));
    } else {
      NothingSplits();
      EmptyConcat(rest, y);
    }
  }

  lemma EmptyConcat<T>(a: seq<T>, b: seq<T>)
    requires a == []
    ensures a + b == b
  {
  }

  lemma SameWidth(x: string, y: string, n: nat)
    requires n < |x| && x[|x| - 1] == '\n'
    ensures BreakWidth(x + y, n) == BreakWidth(x, n)
  {
  }

  lemma NewlineBreaks()
    ensures IsBreak('\n')
  {
  }

  lemma NothingSplits()
    ensures SplitLines([]) == []
  {
  }

  /** A text without breaks in front belongs to the first line. */
  lemma SplitPrefix(a: string, t: string)
    requires NoBreak(a) && t != []
    ensures SplitLines(t) != [] && SplitLines(a + t) == [a + SplitLines(t)[0]] + SplitLines(t)[1..]
  {
    hide IsBreak, SplitLines, BreakWidth, BreakAt;
    var n := BreakAt(t, 0);
    var all := a + t;
    if n < |t| {
      SplitIs(t, n);
      SplitIs(all, |a| + n);
      var w := BreakWidth(t, n);
      SameWidthAfter(a, t, n);
      CutAfter(a, t, n, n + w);
      assert ([t[..n]] + SplitLines(t[n + w..]))[1..] == SplitLines(t[n + w..]);
    } else {
      WholeLine(t);
      WholeLine(all);
      assert [a + t] + [] == [a + t];
    }
  }

  lemma SameWidthAfter(a: string, t: string, n: nat)
    requires n < |t|
    ensures BreakWidth(a + t, |a| + n) == BreakWidth(t, n)
  {
  }

  lemma WholeLine(t: string)
    requires t != [] && NoBreak(t)
    ensures SplitLines(t) == [t]
  {
    BreakAtIs(t, |t|);
  }

  /** What comes back when the text of some lines is split again. */
  function Reread(lines: seq<string>): seq<string> { SplitLines(Text(lines)) }

  lemma RereadFirst(lines: seq<string>)
    requires lines != []
    ensures Reread(lines) == SplitLines(lines[0] + "\n") + Reread(lines[1..])
  {
    var x := lines[0] + "\n";
    SplitAppend(x, Text(lines[1..]));
    assert Text(lines) == x + Text(lines[1..]);
  }

  lemma {:induction false} RereadConcat(a: seq<string>, b: seq<string>)
    ensures Reread(a + b) == Reread(a) + Reread(b)
  {
    if a == [] {
      assert a + b == b;
    } else {
      hide *;
      RereadFirst(a);
      TailConcat(a, b);
      RereadFirst(a + b);
      RereadConcat(a[1..], b);
      Assoc(SplitLines(a[0] + "\n"), Reread(a[1..]), Reread(b));
    }
  }

  lemma NewlineAlone()
    ensures SplitLines("\n") == [""]
  {
    var t := "\n";
    BreakAtIs(t, 0);
    assert t[..0] == "" && t[1..] == "";
  }

  lemma OneLine(x: string)
    requires NoBreak(x)
    ensures SplitLines(x + "\n") == [x]
  {
    NewlineAlone();
    SplitPrefix(x, "\n");
    assert x + "" == x;
  }

  /** Lines without breaks come back as they are. */
  lemma {:induction false} RereadSame(lines: seq<string>)
    requires forall i :: 0 <= i < |lines| ==> NoBreak(lines[i])
    ensures Reread(lines) == lines
  {
    if lines != [] {
      RereadFirst(lines);
      OneLine(lines[0]);
      RereadSame(lines[1..]);
    }
  }

  lemma {:induction false} SplitNoBreak(t: string)
    ensures forall i :: 0 <= i < |SplitLines(t)| ==> NoBreak(SplitLines(t)[i])
    decreases |t|
  {
    if t != [] {
      var n := BreakAt(t, 0);
      if n < |t| {
        SplitNoBreak(t[n + BreakWidth(t, n)..]);
      }
    }
  }
}
