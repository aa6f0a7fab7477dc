/** Which tier of a value counts, and what the bytes of a configuration file mean. */
module ConfigurationLaws {
  import opened Decimals
  import opened Options
  import opened Sequences
  import opened TokenizerBytes
  import opened Characters
  import opened Configuration
  import opened ConfigurationRoundTrip

  // ----- tiers

  /** The command line counts before the file, and the file before the default. */
  lemma Tiers(d: ConfigValue, file: ConfigValue, cli: ConfigValue)
    ensures Effective(Tiered(d, None, None)) == d
    ensures Effective(Tiered(d, Some(file), None)) == file
    ensures Effective(Tiered(d, None, Some(cli))) == Effective(Tiered(d, Some(file), Some(cli))) == cli
  {}

  /** `after` has every entry of `before`, with its default and its command-line override. */
  predicate Keeps(before: Values, after: Values) {
    forall s, k | s in before && k in before[s] ::
      && s in after && k in after[s]
      && after[s][k].systemDefault == before[s][k].systemDefault
      && after[s][k].cliOverride == before[s][k].cliOverride
  }

  lemma {:induction false} LinesKeep(m: Loader, lines: seq<string>)
    ensures Keeps(m.values, LoadLines(m, lines).values)
    decreases |lines|
  {
    hide LoadLine, Keeps;
    if lines == [] {
      KeepsItself(m.values);
    } else {
      var next := LoadLine(m, lines[0]);
      LineKeeps(m, lines[0]);
      LinesKeep(next, lines[1..]);
      KeepsOn(m.values, next.values, LoadLines(next, lines[1..]).values);
    }
  }

  lemma KeepsItself(vs: Values)
    ensures Keeps(vs, vs)
  {}

  lemma KeepsOn(a: Values, b: Values, c: Values)
    requires Keeps(a, b) && Keeps(b, c)
    ensures Keeps(a, c)
  {
    forall s, k | s in a && k in a[s]
      ensures && s in c && k in c[s]
              && c[s][k].systemDefault == a[s][k].systemDefault && c[s][k].cliOverride == a[s][k].cliOverride
    {
      assert s in b && k in b[s];
    }
  }

  lemma LineKeeps(m: Loader, line: string)
    ensures Keeps(m.values, LoadLine(m, line).values)
  {
    hide ReadLine;
    KeepsItself(m.values);
  }

  /** Whatever text is loaded, a value given on the command line stays the one in effect. */
  lemma CommandLineStays(vs: Values, text: string, s: string, k: string, v: ConfigValue)
    requires s in vs && k in vs[s] && vs[s][k].cliOverride == Some(v)
    ensures var after := Load(vs, text).values; s in after && k in after[s] && Effective(after[s][k]) == v
  {
    LinesKeep(Loader(FIRST_SECTION, vs, Going), Lines(text));
    hide LoadLines, Lines;
  }

  predicate HasCommandLine(vs: Values, s: string, k: string) {
    s in vs && k in vs[s] && vs[s][k].cliOverride.Some?
  }

  lemma OneLine(m: Loader, key: string, v: ConfigValue)
    requires m.status == Going && IsPlainKey(key) && IsPlainValue(v)
    ensures LoadLines(m, [KeyLine(key, v)]) == m.(values := SetOverride(m.values, m.section, key, v))
  {
    PlainKeyRead(key, v);
    LoadOne(m, KeyLine(key, v));
    hide KeyLine, ReadLine, SetOverride;
  }

  lemma OverrideCounts(vs: Values, s: string, key: string, v: ConfigValue)
    ensures var after := SetOverride(vs, s, key, v);
            && s in after && key in after[s] && after[s][key].fileOverride == Some(v)
            && (!HasCommandLine(vs, s, key) ==> Effective(after[s][key]) == v)
            && (!(s in vs && key in vs[s]) ==> after[s][key] == Tiered(Boolean(false), Some(v), None))
  {}

  /** A plain key and value in a file take effect unless the command line says otherwise, whatever the default. */
  lemma FileCounts(vs: Values, s: string, key: string, v: ConfigValue)
    requires IsOneLine(s) && IsPlainKey(key) && IsPlainValue(v)
    ensures var end := Load(vs, "[" + s + "]\n" + (key + " = " + FormatValue(v) + "\n"));
            && end.status == Going && s in end.values && key in end.values[s]
            && end.values[s][key].fileOverride == Some(v)
            && (!HasCommandLine(vs, s, key) ==> Effective(end.values[s][key]) == v)
            && (!(s in vs && key in vs[s]) ==> end.values[s][key] == Tiered(Boolean(false), Some(v), None))
  {
    KeyLineText(key, v);
    HeaderText(s);
    hide *;
    SectionLoads(vs, s, key, v);
    OverrideCounts(vs, s, key, v);
    TwoLines("[" + s + "]", KeyLine(key, v));
  }

  /** The two lines, as lines, set the override. */
  lemma SectionLoads(vs: Values, s: string, key: string, v: ConfigValue)
    requires IsOneLine(s) && IsPlainKey(key) && IsPlainValue(v)
    ensures var end := Load(vs, Unlines(["[" + s + "]"] + [KeyLine(key, v)]));
            end.status == Going && end.values == SetOverride(vs, s, key, v)
  {
    var m, header, line := Loader(FIRST_SECTION, vs, Going), "[" + s + "]", KeyLine(key, v);
    KeyLineOneLine(key, v);
    assert AllOneLine([header] + [line]);
    hide LoadLines, Lines, Unlines, KeyLine, SetOverride, IsPlainKey, IsPlainValue, IsOneLine;
    LinesOfUnlines([header] + [line]);
    HeaderLoads(m, s);
    OneLine(m.(section := s), key, v);
    LoadConcat(m, [header], [line]);
  }

  lemma HeaderText(s: string)
    ensures ("[" + s + "]") + "\n" == "[" + s + "]\n"
  {}

  lemma KeyLineText(key: string, v: ConfigValue)
    ensures KeyLine(key, v) == key + " = " + FormatValue(v)
  {}

  lemma TwoLines(a: string, b: string)
    ensures Unlines([a] + [b]) == (a + "\n") + (b + "\n") && Unlines([b]) == b + "\n"
  {
    UnlinesConcat([a], [b]);
    UnlinesOne(a);
    UnlinesOne(b);
    hide Unlines;
  }

  /** Before any header the section is `global`. */
  lemma GlobalCounts(vs: Values, key: string, v: ConfigValue)
    requires IsPlainKey(key) && IsPlainValue(v)
    ensures var end := Load(vs, key + " = " + FormatValue(v) + "\n");
            && end.status == Going && "global" in end.values && key in end.values["global"]
            && end.values["global"][key].fileOverride == Some(v)
            && (!HasCommandLine(vs, "global", key) ==> Effective(end.values["global"][key]) == v)
  {
    var line := KeyLine(key, v);
    KeyLineOneLine(key, v);
    OneLine(Loader(FIRST_SECTION, vs, Going), key, v);
    OverrideCounts(vs, "global", key, v);
    TwoLines("", line);
    LinesOfUnlines([line]);
    KeyLineText(key, v);
    hide LoadLines, Lines, Unlines, KeyLine, SetOverride, FormatValue;
  }

  /** The last line need not end in a newline. */
  lemma LastLine(l: string)
    requires l != "" && IsOneLine(l)
    ensures Lines(l) == [l] && Lines(l + "\n") == [l]
  {
    LinesOfLast("", l);
    Unit(l);
    LinesFromOne("", l, "");
    Unit(l + "\n");
    hide LinesFrom;
    assert LinesFrom("", "") == [] by { NoLines(); }
  }

  lemma NoLines()
    ensures LinesFrom("", "") == []
  {}

  lemma {:induction false} LinesOfLast(line: string, l: string)
    requires IsOneLine(l) && line + l != ""
    ensures LinesFrom(line, l) == [line + l]
    decreases |l|
  {
    if l == "" {
      Unit(line);
    } else {
      LinesOfLast(line + [l[0]], l[1..]);
      assert line + [l[0]] + l[1..] == line + l;
    }
  }

  // ----- the forms of values

  /** Decimals are positional, most significant digit first. */
  lemma DecimalForm(n: nat, d: nat)
    requires d < 10
    ensures ToDecimal(10 * n + d) == (if n == 0 then "" else ToDecimal(n)) + ["0123456789"[d]]
    ensures n > 0 ==> ToDecimal(0 - n) == "-" + ToDecimal(n)
  {
    assert (10 * n + d) / 10 == n && (10 * n + d) % 10 == d;
    assert DigitChar(d) == "0123456789"[d];
  }

  lemma ValueForms(n: int, s: string)
    ensures FormatValue(Boolean(true)) == "true" && FormatValue(Boolean(false)) == "false"
    ensures FormatValue(Integer(n)) == ToDecimal(n)
    ensures FormatValue(Text(s)) == "\"" + s + "\""
  {}

  predicate AreDigits(s: string) {
    forall i | 0 <= i < |s| :: '0' <= s[i] <= '9'
  }

  lemma DigitsAre(s: string)
    ensures AllDigits(s) <==> AreDigits(s)
  {}

  lemma {:induction false} SkipsWhite(white: string, t: string)
    requires AllSpace(white) && (t == "" || !IsSpace(t[0]))
    ensures SkipSpace(white + t) == t
  {
    if white == "" {
      assert white + t == t;
    } else {
      assert (white + t)[1..] == white[1..] + t;
      SkipsWhite(white[1..], t);
    }
  }

  lemma {:induction false} LeadingOf(d: string, rest: string)
    requires AllDigits(d) && (rest == "" || !IsDigit(rest[0]))
    ensures LeadingDigits(d + rest) == d
  {
    if d == "" {
      assert d + rest == rest;
    } else {
      assert (d + rest)[1..] == d[1..] + rest;
      LeadingOf(d[1..], rest);
    }
  }

  /**
   * White space before a number, a plus sign and whatever follows the digits make no difference; a minus
   * sign negates; no digits, or a value outside 64 bits, is no number.
   */
  lemma NumberForms(white: string, sign: string, d: string, rest: string)
    requires AreWhite(white) && AreDigits(d) && (sign == "" || sign == "+" || sign == "-")
    requires rest == "" || !('0' <= rest[0] <= '9')
    requires d == "" && sign == "" && rest != "" ==> !IsWhite(rest[0]) && rest[0] != '+' && rest[0] != '-'
    ensures AllDigits(d)
    ensures var magnitude: int := ValueOf(d);
            var n := if sign == "-" then -magnitude else magnitude;
            ParseInteger(white + (sign + (d + rest))) ==
            if d == "" || n < -0x8000_0000_0000_0000 || n >= 0x8000_0000_0000_0000 then NoNumber else Number(n)
  {
    DigitsAre(d);
    hide SkipSpace, LeadingDigits, ValueOf, AllDigits, AreDigits, AreWhite, AllSpace, IsWhite, IsSpace, IsDigit;
    var t := sign + (d + rest);
    Classes(white);
    NotSpace(sign, d, rest);
    SkipsWhite(white, t);
    NotDigit(rest);
    LeadingOf(d, rest);
    SignOf(sign, d, rest);
  }

  lemma NotDigit(rest: string)
    requires rest == "" || !('0' <= rest[0] <= '9')
    ensures rest == "" || !IsDigit(rest[0])
  {}

  lemma SignOf(sign: string, d: string, rest: string)
    requires AreDigits(d) && (sign == "" || sign == "+" || sign == "-")
    requires d == "" && sign == "" && rest != "" ==> rest[0] != '+' && rest[0] != '-'
    ensures var t := sign + (d + rest);
            && (t != "" && t[0] == '-' <==> sign == "-")
            && (if t != "" && (t[0] == '-' || t[0] == '+') then t[1..] else t) == d + rest
  {
    var t := sign + (d + rest);
    if sign == "" {
      assert t == d + rest;
      if d != "" { assert t[0] == d[0]; }
    } else {
      assert t[0] == sign[0] && t[1..] == d + rest;
    }
  }

  lemma NotSpace(sign: string, d: string, rest: string)
    requires AreDigits(d) && (sign == "" || sign == "+" || sign == "-")
    requires d == "" && sign == "" && rest != "" ==> !IsWhite(rest[0])
    ensures var t := sign + (d + rest); t == "" || !IsSpace(t[0])
  {
    var t := sign + (d + rest);
    if t != "" { assert t[0] == if sign != "" then sign[0] else if d != "" then d[0] else rest[0]; }
  }

  /** A lone quote is the empty text. */
  lemma LoneQuote(key: string)
    ensures ReadValue(key, "\"") == Assign(key, Text(""))
  {}

  /** A word that is no boolean, and starts no number, text or fraction, makes the load fail. */
  lemma UnreadableWord(key: string, v: string)
    requires v != "" && v != "true" && v != "false" && v[0] != '"' && '.' !in v
    requires !('0' <= v[0] <= '9') && v[0] != '+' && v[0] != '-' && !IsWhite(v[0])
    ensures ReadValue(key, v) == Fails
  {
    Unit(v);
    NumberForms("", "", "", v);
    hide ParseInteger;
  }

  // ----- white space and comments in a file

  predicate AreBlanks(s: string) {
    forall i | 0 <= i < |s| :: s[i] == ' ' || s[i] == '\t'
  }

  predicate AreLineWhite(s: string) {
    forall i | 0 <= i < |s| :: s[i] == ' ' || s[i] == '\t' || s[i] == '\r' || s[i] == '\n'
  }

  lemma {:induction false} DropsLeft(pad: string, s: string, p: char -> bool)
    requires (forall i | 0 <= i < |pad| :: p(pad[i])) && (s == "" || !p(s[0]))
    ensures DropLeft(pad + s, p) == s
    decreases |pad|
  {
    if pad == "" {
      assert pad + s == s;
    } else {
      assert (pad + s)[1..] == pad[1..] + s;
      DropsLeft(pad[1..], s, p);
    }
  }

  lemma {:induction false} DropsRight(s: string, pad: string, p: char -> bool)
    requires (forall i | 0 <= i < |pad| :: p(pad[i])) && (s == "" || !p(s[|s| - 1]))
    ensures DropRight(s + pad, p) == s
    decreases |pad|
  {
    if pad == "" {
      assert s + pad == s;
    } else {
      assert (s + pad)[..|s + pad| - 1] == s + pad[..|pad| - 1];
      DropsRight(s, pad[..|pad| - 1], p);
    }
  }

  /** A key with no `=`, not a comment or a header, and without white space at its ends. */
  predicate IsWord(key: string) {
    && key != "" && '=' !in key && key[0] != '#' && key[0] != '['
    && key[0] != ' ' && key[0] != '\t' && key[0] != '\r' && key[0] != '\n'
    && key[|key| - 1] != ' ' && key[|key| - 1] != '\t'
  }

  lemma TrimmedLine(p1: string, body: string, p4: string)
    requires AreLineWhite(p1) && AreLineWhite(p4) && body != ""
    requires !IsLineSpace(body[0]) && !IsLineSpace(body[|body| - 1])
    ensures TrimLine(p1 + (body + p4)) == body
  {
    DropsLeft(p1, body + p4, IsLineSpace);
    DropsRight(body, p4, IsLineSpace);
    hide DropLeft, DropRight;
  }

  /** White space around a line, around its key and before its value makes no difference. */
  lemma WhiteInLine(p1: string, key: string, p2: string, p3: string, v: ConfigValue, p4: string)
    requires AreLineWhite(p1) && AreBlanks(p2) && AreBlanks(p3) && AreLineWhite(p4)
    requires IsWord(key) && IsPlainValue(v)
    ensures ReadLine(p1 + ((key + p2 + "=" + (p3 + FormatValue(v))) + p4)) == Assign(key, v)
  {
    var f := FormatValue(v);
    var l := key + p2 + "=" + (p3 + f);
    FormatEdges(v);
    FormatRead(key, v);
    LineEdges(key, p2, p3, f);
    hide FormatValue, ReadValue, ReadTrimmed, TrimLine, IsWord, IsPlainValue, AreLineWhite, AreBlanks, IsLineSpace;
    TrimmedLine(p1, l, p4);
    ReadInLine(key, p2, p3, f);
  }

  lemma LineEdges(key: string, p2: string, p3: string, f: string)
    requires IsWord(key) && f != "" && !IsLineSpace(f[0]) && !IsLineSpace(f[|f| - 1])
    ensures var l := key + p2 + "=" + (p3 + f);
            l != "" && !IsLineSpace(l[0]) && !IsLineSpace(l[|l| - 1])
  {
    var l := key + p2 + "=" + (p3 + f);
    assert l[0] == key[0] && l[|l| - 1] == f[|f| - 1];
  }

  lemma ReadInLine(key: string, p2: string, p3: string, f: string)
    requires AreBlanks(p2) && AreBlanks(p3) && IsWord(key)
    requires f != "" && !IsLineSpace(f[0]) && f[|f| - 1] != ']'
    ensures ReadTrimmed(key + p2 + "=" + (p3 + f)) == ReadValue(key, f)
  {
    var l := key + p2 + "=" + (p3 + f);
    assert l[0] == key[0] && l[|l| - 1] == f[|f| - 1];
    EqualsAt(key, p2, p3 + f);
    DropsRight(key, p2, IsBlank);
    DropsLeft(p3, f, IsBlank);
    hide ReadValue, DropLeft, DropRight, IndexOf;
  }

  lemma EqualsAt(key: string, p2: string, after: string)
    requires '=' !in key && AreBlanks(p2)
    ensures var l := key + p2 + "=" + after;
            var eq := IndexOf(l, '=');
            eq < |l| && l[..eq] == key + p2 && l[eq + 1..] == after
  {
    var before := key + p2;
    assert '=' !in before;
    assert before + "=" + after == before + ['='] + after;
    SplitAtEquals(before, after);
    hide IndexOf;
  }

  /** A line of white space, or whose first other character is `#`, or without a `=` outside brackets, says nothing. */
  lemma IgnoredLine(p1: string, body: string, p4: string)
    requires AreLineWhite(p1) && AreLineWhite(p4)
    requires body != "" ==> !IsLineSpace(body[0]) && !IsLineSpace(body[|body| - 1])
    requires body == "" || body[0] == '#' || (body[0] != '[' && '=' !in body)
    ensures ReadLine(p1 + (body + p4)) == Nothing
  {
    if body == "" {
      assert p1 + (body + p4) == (p1 + p4) + "";
      DropsLeft(p1 + p4, "", IsLineSpace);
      assert TrimLine(p1 + (body + p4)) == "";
    } else {
      TrimmedLine(p1, body, p4);
    }
    hide TrimLine, DropLeft, DropRight;
  }

  // ----- the bytes of a dump

  /** The dump of one entry: its section's header, its description, its effective value and a blank line. */
  lemma DumpBytes(schemas: map<string, seq<ConfigOption>>, s: string, k: string, t: Tiered, description: string)
    requires s in schemas ==> FindOption(schemas[s], k).None?
    ensures Dump(schemas, map[s := map[k := t]], [(s, [k])]) ==
            "[" + s + "]\n" + (k + " = " + FormatValue(Effective(t)) + "\n") + "\n"
    ensures Dump(map[s := [ConfigOption(k, t.systemDefault, description)]], map[s := map[k := t]], [(s, [k])]) ==
            "[" + s + "]\n" + ("# " + description + "\n") + (k + " = " + FormatValue(Effective(t)) + "\n") + "\n"
  {
    var vs, order := map[s := map[k := t]], [(s, [k])];
    var line := KeyLine(k, Effective(t));
    var header := "[" + s + "]";
    assert [k][1..] == [] && order[1..] == [];
    KeyLineText(k, Effective(t));
    var described := map[s := [ConfigOption(k, t.systemDefault, description)]];
    assert KeyLines(schemas, s, vs[s], []) == [] && KeyLines(described, s, vs[s], []) == [];
    assert KeyLines(schemas, s, vs[s], [k]) == [line];
    assert KeyLines(described, s, vs[s], [k]) == ["# " + description] + [line];
    assert DumpLines(schemas, vs, order) == [header] + [line] + [""];
    assert DumpLines(described, vs, order) == [header] + (["# " + description] + [line]) + [""];
    hide FormatValue, Effective, KeyLine, DumpLines, KeyLines;
    ThreeLines(header, [line]);
    ThreeLines(header, ["# " + description] + [line]);
    TwoLines("# " + description, line);
    hide Unlines;
    assert header + "\n" == "[" + s + "]\n";
  }

  lemma ThreeLines(a: string, b: seq<string>)
    ensures Unlines([a] + b + [""]) == (a + "\n") + Unlines(b) + "\n"
  {
    UnlinesConcat([a], b);
    UnlinesConcat([a] + b, [""]);
    UnlinesOne(a);
    UnlinesOne("");
    assert "" + "\n" == "\n";
    hide Unlines;
  }
}
