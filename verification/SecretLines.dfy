/** Which lines of a configuration are secret (SENSITIVE_LINE of config_generator.py in experiment-manager/backend/app),
    with its words and the white space in literals, and what redact_sensitive and merge_sensitive do to them. */
module SecretLines {
  import opened Options
  import opened PythonText
  import opened Secrets

  // ----- A line in literals ----------------------------------------------------------------------

  /** The 29 characters that Python takes for white space. */
  const WHITE: string :=
    " \t\n\U{000B}\U{000C}\r\U{001C}\U{001D}\U{001E}\U{001F}\U{0085}\U{00A0}\U{1680}\U{2000}\U{2001}\U{2002}\U{2003}" +
    "\U{2004}\U{2005}\U{2006}\U{2007}\U{2008}\U{2009}\U{200A}\U{2028}\U{2029}\U{202F}\U{205F}\U{3000}"

  predicate White(t: string) { forall i :: 0 <= i < |t| ==> t[i] in WHITE }

  /** A letter in either case; three letters have a further form that is the same when case is ignored. */
  predicate SameLetter(c: char, letter: char)
    requires 'a' <= letter <= 'z'
  {
    c == letter || c as int == letter as int - 32 || (letter == 'i' && (c == '\U{0130}' || c == '\U{0131}')) ||
    (letter == 's' && c == '\U{017F}') || (letter == 'k' && c == '\U{212A}')
  }

  predicate Spells(key: string, word: string)
    requires forall k :: 0 <= k < |word| ==> 'a' <= word[k] <= 'z'
  {
    |key| == |word| && forall k :: 0 <= k < |key| ==> SameLetter(key[k], word[k])
  }

  predicate IsSecretKey(key: string) {
    Spells(key, "opc") || Spells(key, "op") || Spells(key, "k") || Spells(key, "pin") || Spells(key, "password")
  }

  predicate OneLine(value: string) { forall i :: 0 <= i < |value| ==> value[i] != '\n' }

  /** White space, a secret key, white space, an equals sign and a value. */
  predicate SecretLine(lead: string, key: string, gap: string, value: string) {
    White(lead) && IsSecretKey(key) && White(gap) && OneLine(value)
  }

  function LineText(lead: string, key: string, gap: string, value: string): string { lead + key + (gap + "=") + value }

  lemma WhiteIs(c: char)
    ensures c in WHITE <==> IsSpace(c)
  {
    var w := WHITE;
    if IsSpace(c) {
      assert w[0] == ' ' && w[1] == '\t' && w[2] == '\n' && w[3] == '\U{000B}' && w[4] == '\U{000C}' && w[5] == '\r';
      assert w[6] == '\U{001C}' && w[7] == '\U{001D}' && w[8] == '\U{001E}' && w[9] == '\U{001F}';
      assert w[10] == '\U{0085}' && w[11] == '\U{00A0}' && w[12] == '\U{1680}' && w[13] == '\U{2000}';
      assert w[14] == '\U{2001}' && w[15] == '\U{2002}' && w[16] == '\U{2003}' && w[17] == '\U{2004}';
      assert w[18] == '\U{2005}' && w[19] == '\U{2006}' && w[20] == '\U{2007}' && w[21] == '\U{2008}';
      assert w[22] == '\U{2009}' && w[23] == '\U{200A}' && w[24] == '\U{2028}' && w[25] == '\U{2029}';
      assert w[26] == '\U{202F}' && w[27] == '\U{205F}' && w[28] == '\U{3000}';
    }
  }

  lemma WhiteIff(t: string)
    ensures White(t) <==> AllSpace(t)
  {
    hide WHITE, IsSpace;
    forall i | 0 <= i < |t|
      ensures t[i] in WHITE <==> IsSpace(t[i])
    {
      WhiteIs(t[i]);
    }
  }

  lemma LetterIff(c: char, letter: char)
    requires 'a' <= letter <= 'z'
    ensures SameLetter(c, letter) <==> Fold(c) == letter
  {
  }

  lemma SpellsIff(key: string, word: string, w: Word)
    requires Letters(w) == word && forall k :: 0 <= k < |word| ==> 'a' <= word[k] <= 'z'
    ensures Spells(key, word) <==> IsKey(key, w)
  {
    hide Letters, Fold, SameLetter;
    forall k | 0 <= k < |key| && k < |word|
      ensures SameLetter(key[k], word[k]) <==> Fold(key[0 + k]) == Letters(w)[k]
    {
      LetterIff(key[k], word[k]);
    }
    if IsKey(key, w) {
      forall k | 0 <= k < |key|
        ensures SameLetter(key[k], word[k])
      {
        assert Fold(key[0 + k]) == Letters(w)[k];
      }
    }
  }

  lemma TheWords()
    ensures Letters(Opc) == "opc" && Letters(Op) == "op" && Letters(K) == "k" && Letters(Pin) == "pin"
    ensures Letters(Password) == "password"
  {
  }

  lemma SecretKeyIff(key: string)
    ensures IsSecretKey(key) <==> KeyShape(key)
  {
    TheWords();
    SpellsIff(key, "opc", Opc);
    SpellsIff(key, "op", Op);
    SpellsIff(key, "k", K);
    SpellsIff(key, "pin", Pin);
    SpellsIff(key, "password", Password);
    hide Letters, Spells, IsKey;
    if KeyShape(key) {
      var w: Word :| IsKey(key, w);
      assert w == Opc || w == Op || w == K || w == Pin || w == Password;
    }
  }

  /** A secret line is a field of the expression, in the text as it is. */
  lemma LineIsField(lead: string, key: string, gap: string, value: string)
    requires SecretLine(lead, key, gap, value)
    ensures Shape(Secret(lead, key, gap + "=", value))
    ensures SegText(Secret(lead, key, gap + "=", value)) == LineText(lead, key, gap, value)
  {
    WhiteIff(lead);
    WhiteIff(gap);
    SecretKeyIff(key);
    hide IsSecretKey, KeyShape, White, AllSpace;
    assert (gap + "=")[..|gap| + 1 - 1] == gap;
  }

  /** At the start of a line the expression matches exactly where a secret line begins. */
  lemma MatchesIff(t: string)
    ensures Match(t).Some? <==>
            exists lead: string, key: string, gap: string, value: string, rest: string ::
              SecretLine(lead, key, gap, value) && LineEnd(rest) && t == LineText(lead, key, gap, value) + rest
  {
    hide SecretLine, LineText, Match, SegText, Shape;
    if Match(t).Some? {
      MatchShape(t);
      FieldIsLine(Match(t).value);
      var s := Match(t).value;
      assert LineEnd(t[|SegText(s)|..]);
    }
    forall lead: string, key: string, gap: string, value: string, rest: string |
      SecretLine(lead, key, gap, value) && LineEnd(rest) && t == LineText(lead, key, gap, value) + rest
      ensures Match(t).Some?
    {
      LineIsField(lead, key, gap, value);
      MatchIs(Secret(lead, key, gap + "=", value), rest);
    }
  }

  lemma FieldIsLine(s: Seg)
    requires Shape(s)
    ensures s.Secret? && s.eq != [] && SecretLine(s.lead, s.key, s.eq[..|s.eq| - 1], s.rest)
    ensures SegText(s) == LineText(s.lead, s.key, s.eq[..|s.eq| - 1], s.rest)
  {
    WhiteIff(s.lead);
    WhiteIff(s.eq[..|s.eq| - 1]);
    SecretKeyIff(s.key);
    hide IsSecretKey, KeyShape, White, AllSpace;
    assert s.eq[..|s.eq| - 1] + "=" == s.eq;
  }

  // ----- Redacting -------------------------------------------------------------------------------

  /** The value of a secret line, whatever it is, is replaced by the mask. */
  lemma RedactLine(lead: string, key: string, gap: string, value: string)
    requires SecretLine(lead, key, gap, value)
    ensures Redact(lead + key + (gap + "=") + value) == lead + key + (gap + "=") + " ******** (redacted)"
  {
    var s := Secret(lead, key, gap + "=", value);
    LineIsField(lead, key, gap, value);
    LineScans(s);
    hide Scan, Shape, SecretLine;
    OneHidden(s);
  }

  /** The operator key of a UE configuration, and a key in capitals. */
  lemma KeysAreHidden()
    ensures Redact("opc  = 63BFA50E") == "opc  = ******** (redacted)"
    ensures Redact("\tPASSWORD=x=y") == "\tPASSWORD= ******** (redacted)"
  {
    hide *;
    ExampleLines();
    RedactLine("", "opc", "  ", " 63BFA50E");
    RedactLine("\t", "PASSWORD", "", "x=y");
    ExampleTexts();
    CapitalTexts();
  }

  lemma ExampleLines()
    ensures SecretLine("", "opc", "  ", " 63BFA50E") && SecretLine("\t", "PASSWORD", "", "x=y")
  {
    BlankAndTab();
    hide WHITE;
    assert Spells("opc", "opc") && Spells("PASSWORD", "password");
    hide Spells;
  }

  lemma ExampleTexts()
    ensures "" + "opc" + ("  " + "=") + " 63BFA50E" == "opc  = 63BFA50E"
    ensures "" + "opc" + ("  " + "=") + " ******** (redacted)" == "opc  = ******** (redacted)"
  {
  }

  lemma CapitalTexts()
    ensures "\t" + "PASSWORD" + ("" + "=") + "x=y" == "\tPASSWORD=x=y"
    ensures "\t" + "PASSWORD" + ("" + "=") + " ******** (redacted)" == "\tPASSWORD= ******** (redacted)"
  {
  }

  lemma BlankAndTab()
    ensures ' ' in WHITE && '\t' in WHITE
  {
    WhiteIs(' ');
    WhiteIs('\t');
    hide WHITE;
  }

  lemma LineScans(s: Seg)
    requires Shape(s)
    ensures Scan(SegText(s), true) == [s]
  {
    hide Shape, SegText;
    ScanField(s, []);
    assert SegText(s) + [] == SegText(s);
  }

  lemma OneHidden(s: Seg)
    requires s.Secret?
    ensures Unscan(HideAll([s])) == s.lead + s.key + s.eq + " ******** (redacted)"
  {
    assert HideAll([s]) == [Hide(s)];
    UnscanCons(Hide(s), []);
    assert [Hide(s)] + [] == [Hide(s)];
  }

  /** The lines behind it are redacted as if they stood alone. */
  lemma RedactLineThen(lead: string, key: string, gap: string, value: string, rest: string)
    requires SecretLine(lead, key, gap, value)
    ensures Redact(LineText(lead, key, gap, value) + ("\n" + rest)) ==
            LineText(lead, key, gap, " ******** (redacted)") + ("\n" + Redact(rest))
  {
    var s := Secret(lead, key, gap + "=", value);
    LineIsField(lead, key, gap, value);
    LineThenScans(s, rest);
    assert Hide(s) == Secret(lead, key, gap + "=", " ******** (redacted)");
    assert SegText(Hide(s)) == LineText(lead, key, gap, " ******** (redacted)");
    hide Scan, Shape, SecretLine, SegText, LineText, HideAll;
    var more := Scan(rest, true);
    HideCons(s, [Plain('\n')] + more);
    HideCons(Plain('\n'), more);
    UnscanCons(Hide(s), [Plain('\n')] + HideAll(more));
    UnscanCons(Plain('\n'), HideAll(more));
    assert SegText(Plain('\n')) == "\n" by { NewlineText(); }
  }

  lemma NewlineText()
    ensures SegText(Plain('\n')) == "\n" && Hide(Plain('\n')) == Plain('\n')
  {
  }

  lemma LineThenScans(s: Seg, rest: string)
    requires Shape(s)
    ensures Scan(SegText(s) + ("\n" + rest), true) == [s] + ([Plain('\n')] + Scan(rest, true))
  {
    hide Shape, SegText, Scan;
    assert LineEnd("\n" + rest);
    ScanField(s, "\n" + rest);
    ScanPlain('\n', rest, false);
  }

  lemma HideCons(s: Seg, rest: seq<Seg>)
    ensures HideAll([s] + rest) == [Hide(s)] + HideAll(rest)
  {
  }

  /** No line of the text from `i` on begins a secret line. */
  ghost predicate NothingSecret(t: string, bol: bool) {
    forall i, lead: string, key: string, gap: string, value: string, rest: string ::
      0 <= i <= |t| && (if i == 0 then bol else t[i - 1] == '\n') && SecretLine(lead, key, gap, value) &&
      LineEnd(rest) ==>
        t[i..] != LineText(lead, key, gap, value) + rest
  }

  /** A text without a secret line is shown as it is. */
  lemma NothingToRedact(t: string)
    requires NothingSecret(t, true)
    ensures Redact(t) == t
  {
    OnlyPlain(t, true);
    UnscanScan(t, true);
    hide Scan, NothingSecret;
    var segs := Scan(t, true);
    assert HideAll(segs) == segs;
  }

  lemma {:induction false} OnlyPlain(t: string, bol: bool)
    requires NothingSecret(t, bol)
    ensures forall k :: 0 <= k < |Scan(t, bol)| ==> Scan(t, bol)[k].Plain?
    decreases |t|
  {
    hide Match, SegText, SecretLine, LineText;
    if t != [] {
      if bol {
        MatchesIff(t);
        assert t[0..] == t;
      }
      assert !(bol && Match(t).Some?);
      TailNothing(t, bol);
      hide NothingSecret;
      OnlyPlain(t[1..], t[0] == '\n');
    }
  }

  lemma TailNothing(t: string, bol: bool)
    requires t != [] && NothingSecret(t, bol)
    ensures NothingSecret(t[1..], t[0] == '\n')
  {
    hide SecretLine, LineText, LineEnd;
    forall i, lead: string, key: string, gap: string, value: string, rest: string |
      0 <= i <= |t[1..]| && (if i == 0 then t[0] == '\n' else t[1..][i - 1] == '\n') &&
      SecretLine(lead, key, gap, value) && LineEnd(rest)
      ensures t[1..][i..] != LineText(lead, key, gap, value) + rest
    {
      assert t[1..][i..] == t[i + 1..];
    }
  }

  // ----- Merging ---------------------------------------------------------------------------------

  /** The word that a key in either case stands for: the name of the field. */
  lemma NameOf(key: string, word: string)
    requires forall k :: 0 <= k < |word| ==> 'a' <= word[k] <= 'z'
    requires |key| == |word|
    requires forall k :: 0 <= k < |word| ==> key[k] == word[k] || key[k] as int == word[k] as int - 32
    ensures Lower(key) == word
    decreases |key|
  {
    if key != [] {
      NameOf(key[1..], word[1..]);
      assert word == [word[0]] + word[1..];
    } else {
      assert word == [];
    }
  }

  /** Two of the further forms are lowered to the plain letter, one of them with a mark behind it. */
  lemma NameOfOtherForms()
    ensures Lower("\U{212A}") == "k" && Lower("P\U{0130}N") == "pi\U{0307}n"
    ensures IsSecretKey("\U{212A}") && IsSecretKey("P\U{0130}N")
  {
    assert "P\U{0130}N"[1..] == "\U{0130}N" && "\U{0130}N"[1..] == "N" && "N"[1..] == "";
    assert "\U{212A}"[1..] == "";
    assert Spells("\U{212A}", "k") && Spells("P\U{0130}N", "pin");
    hide Spells;
  }

  predicate HasMask(value: string) { exists i {:trigger value[i..]} :: 0 <= i <= |value| && "(redacted)" <= value[i..] }

  lemma MaskedIff(s: Seg)
    requires s.Secret?
    ensures Masked(s) <==> HasMask(s.rest)
  {
  }

  /** A first line that is secret and whose value is not the mask is refused, whatever the original is and whatever
      follows. */
  lemma EditIsRefused(original: string, lead: string, key: string, gap: string, value: string, rest: string)
    requires SecretLine(lead, key, gap, value) && !HasMask(value)
    ensures Merge(original, LineText(lead, key, gap, value)) == Edited(Lower(key))
    ensures Merge(original, LineText(lead, key, gap, value) + ("\n" + rest)) == Edited(Lower(key))
  {
    var s := Secret(lead, key, gap + "=", value);
    LineIsField(lead, key, gap, value);
    LineScans(s);
    LineThenScans(s, rest);
    MaskedIff(s);
    hide Scan, Shape, SecretLine, Originals, KeysOf, RestoreAll, Unscan, Lower, HasMask, Masked, LineText, SegText;
    assert FirstEdited([s]) == 0 && FirstEdited([s] + ([Plain('\n')] + Scan(rest, true))) == 0;
  }

  /** A secret line of the original is not left out. */
  lemma RemovalIsRefused(lead: string, key: string, gap: string, value: string, submitted: string)
    requires SecretLine(lead, key, gap, value) && NothingSecret(submitted, true)
    ensures Merge(LineText(lead, key, gap, value), submitted) == Missing({Lower(key)})
  {
    var s := Secret(lead, key, gap + "=", value);
    LineIsField(lead, key, gap, value);
    LineScans(s);
    OnlyPlain(submitted, true);
    OneOriginal(s);
    hide Scan, Shape, SecretLine, NothingSecret, Lower, LineText, SegText;
    var segs := Scan(submitted, true);
    assert FirstEdited(segs) == |segs|;
    assert KeysOf(segs) == {};
    hide *;
    MergeEnds(LineText(lead, key, gap, value), submitted);
    assert Originals([s]).Keys - {} == {Lower(key)};
  }

  lemma OneOriginal(s: Seg)
    requires s.Secret?
    ensures Originals([s]) == map[Lower(s.key) := s] && Originals([s]).Keys == {Lower(s.key)}
  {
    hide Lower;
    assert [s][..0] == [];
    assert Originals([]) == map[];
  }

  /** A secret line that comes back with the mask, however it is laid out, gets the original line. */
  lemma MaskIsExchanged(lead: string, key: string, gap: string, value: string,
                        lead': string, key': string, gap': string, value': string)
    requires SecretLine(lead, key, gap, value) && SecretLine(lead', key', gap', value')
    requires Lower(key) == Lower(key') && HasMask(value')
    ensures Merge(LineText(lead, key, gap, value), LineText(lead', key', gap', value')) ==
            Merged.Merged(LineText(lead, key, gap, value))
  {
    var s, t := Secret(lead, key, gap + "=", value), Secret(lead', key', gap' + "=", value');
    LineIsField(lead, key, gap, value);
    LineIsField(lead', key', gap', value');
    MaskedIff(t);
    LineScans(s);
    LineScans(t);
    OneOriginal(s);
    OneMasked(s, t);
    hide *;
    MergeEnds(LineText(lead, key, gap, value), LineText(lead', key', gap', value'));
    assert {Lower(key)} - {Lower(key')} == {};
  }

  lemma OneMasked(s: Seg, t: Seg)
    requires s.Secret? && t.Secret? && Masked(t) && Lower(s.key) == Lower(t.key)
    ensures FirstEdited([t]) == 1 && KeysOf([t]) == {Lower(t.key)}
    ensures Unscan(RestoreAll([t], Originals([s]))) == SegText(s)
  {
    OneOriginal(s);
    NoneEdited(t);
    OneKey(t);
    hide *;
    UnscanCons(s, []);
    NothingUnscans();
    RestoreOne(s, t);
    assert [s] + [] == [s] && SegText(s) + [] == SegText(s);
  }

  lemma NoneEdited(t: Seg)
    requires Masked(t)
    ensures FirstEdited([t]) == 1
  {
    assert [t][1..] == [] && FirstEdited([]) == 0;
    hide Masked;
  }

  lemma OneKey(t: Seg)
    requires t.Secret?
    ensures KeysOf([t]) == {Lower(t.key)}
  {
    hide Lower;
    assert t in [t];
  }

  lemma NothingUnscans()
    ensures Unscan([]) == []
  {
  }

  lemma RestoreOne(s: Seg, t: Seg)
    requires s.Secret? && t.Secret? && Lower(s.key) == Lower(t.key) && Originals([s]) == map[Lower(s.key) := s]
    ensures RestoreAll([t], Originals([s])) == [s]
  {
    hide Lower, Originals;
  }
}
