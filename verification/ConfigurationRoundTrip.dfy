/** Loading a dump back: exactly which entries survive, and that then no effective value changes. */
module ConfigurationRoundTrip {
  import opened Decimals
  import opened Options
  import opened Sequences
  import opened Configuration

  // ----- the file as lines

  lemma {:induction false} LinesFromOne(line: string, l: string, rest: string)
    requires IsOneLine(l)
    ensures LinesFrom(line, l + "\n" + rest) == [line + l] + LinesFrom("", rest)
    decreases |l|
  {
    var text := l + "\n" + rest;
    if l == "" {
      assert text[0] == '\n' && text[1..] == rest && line + l == line;
    } else {
      assert text[0] == l[0] && text[1..] == l[1..] + "\n" + rest;
      LinesFromOne(line + [l[0]], l[1..], rest);
      assert line + [l[0]] + l[1..] == line + l;
    }
  }

  predicate AllOneLine(lines: seq<string>) {
    forall l | l in lines :: IsOneLine(l)
  }

  /** Lines written out are the lines read back. */
  lemma {:induction false} LinesOfUnlines(lines: seq<string>)
    requires AllOneLine(lines)
    ensures Lines(Unlines(lines)) == lines
  {
    if lines != [] {
      LinesFromOne("", lines[0], Unlines(lines[1..]));
      assert "" + lines[0] == lines[0];
      LinesOfUnlines(lines[1..]);
    }
  }

  lemma {:induction false} UnlinesConcat(a: seq<string>, b: seq<string>)
    ensures Unlines(a + b) == Unlines(a) + Unlines(b)
    decreases |a|
  {
    if a == [] {
      assert a + b == b;
    } else {
      assert (a + b)[1..] == a[1..] + b;
      UnlinesConcat(a[1..], b);
    }
  }

  lemma UnlinesOne(l: string)
    ensures Unlines([l]) == l + "\n"
  {
    assert [l][1..] == [];
  }

  lemma {:induction false} LoadConcat(m: Loader, a: seq<string>, b: seq<string>)
    ensures LoadLines(m, a + b) == LoadLines(LoadLines(m, a), b)
    decreases |a|
  {
    if a == [] {
      assert a + b == b;
    } else {
      assert (a + b)[1..] == a[1..] + b;
      LoadConcat(LoadLine(m, a[0]), a[1..], b);
    }
  }

  // ----- one line

  /** A key the file format can carry: no `=`, not cut by trimming, not taken for a comment. */
  predicate IsPlainKey(key: string) {
    && '=' !in key && IsOneLine(key)
    && (key != "" ==> key[0] != '#' && !IsLineSpace(key[0]) && !IsBlank(key[|key| - 1]))
  }

  predicate IsPlainValue(v: ConfigValue) {
    match v
    case Boolean(_) => true
    case Integer(n) => IsInt64(n)
    case Text(s) => IsOneLine(s)
  }

  /** A formatted value survives trimming and is not the end of a section header. */
  lemma FormatEdges(v: ConfigValue)
    ensures var f := FormatValue(v);
            f != "" && !IsLineSpace(f[0]) && !IsLineSpace(f[|f| - 1]) && f[|f| - 1] != ']'
  {
    if v.Integer? { DecimalCharacters(v.n); }
    hide ToDecimal;
  }

  lemma IntegerRead(key: string, n: int)
    requires IsInt64(n)
    ensures ReadValue(key, ToDecimal(n)) == Assign(key, Integer(n))
  {
    DecimalRoundTrip(n);
    DecimalCharacters(n);
    var v := ToDecimal(n);
    hide ToDecimal, ParseInteger;
    assert v[0] != 't' && v[0] != 'f' && v[0] != '"';
    assert '.' !in v;
  }

  /** Every value reads back from its formatted form. */
  lemma FormatRead(key: string, v: ConfigValue)
    requires v.Integer? ==> IsInt64(v.n)
    ensures ReadValue(key, FormatValue(v)) == Assign(key, v)
  {
    match v
    case Boolean(_) =>
    case Integer(n) => IntegerRead(key, n);
    case Text(s) =>
      var f := FormatValue(v);
      assert f[0] == '"' && f[|f| - 1] == '"' && f[1..|f| - 1] == s;
  }

  lemma TrimNothing(l: string)
    requires l != "" && !IsLineSpace(l[0]) && !IsLineSpace(l[|l| - 1])
    ensures TrimLine(l) == l
  {}

  lemma DropBlank(key: string)
    requires key == "" || !IsBlank(key[|key| - 1])
    ensures DropRight(key + " ", IsBlank) == key
  {
    assert (key + " ")[..|key + " "| - 1] == key;
  }

  lemma SplitAtEquals(before: string, after: string)
    requires '=' !in before
    ensures var l := before + ['='] + after;
            IndexOf(l, '=') == |before| < |l| && l[..|before|] == before && l[|before| + 1..] == after
  {
    IndexOfFirst(before, '=', after);
  }

  lemma DropLeading(f: string)
    requires f != "" && !IsLineSpace(f[0])
    ensures DropLeft(" " + f, IsBlank) == f
  {
    assert (" " + f)[1..] == f;
  }

  lemma KeylessLine(f: string)
    requires f != "" && !IsLineSpace(f[|f| - 1])
    ensures TrimLine("" + " = " + f) == "=" + (" " + f)
  {
    var l := "" + " = " + f;
    assert l[1..] == "=" + (" " + f);
    TrimNothing("=" + (" " + f));
  }

  lemma ReadAt(l: string, eq: nat)
    requires eq == IndexOf(l, '=') < |l| && l[0] != '#' && l[|l| - 1] != ']'
    ensures ReadTrimmed(l) == ReadValue(DropRight(l[..eq], IsBlank), DropLeft(l[eq + 1..], IsBlank))
  {
    hide IndexOf, ReadValue, DropRight, DropLeft;
  }

  lemma EqualsRead(before: string, f: string)
    requires '=' !in before && (before != "" ==> before[0] != '#')
    requires f != "" && !IsLineSpace(f[0]) && f[|f| - 1] != ']'
    ensures ReadTrimmed(before + ['='] + (" " + f)) == ReadValue(DropRight(before, IsBlank), f)
  {
    var l := before + ['='] + (" " + f);
    assert l[0] == (if before == "" then '=' else before[0]) && l[|l| - 1] == f[|f| - 1];
    SplitAtEquals(before, " " + f);
    DropLeading(f);
    hide IndexOf, ReadValue, DropLeft, DropRight, ReadTrimmed;
    ReadAt(l, |before|);
  }

  lemma KeyedLine(key: string, f: string)
    requires key != "" && !IsLineSpace(key[0]) && f != "" && !IsLineSpace(f[|f| - 1])
    ensures TrimLine(key + " = " + f) == (key + " ") + ['='] + (" " + f)
  {
    var l := (key + " ") + ['='] + (" " + f);
    assert key + " = " + f == l;
    TrimNothing(l);
  }

  lemma PlainKeyRead(key: string, v: ConfigValue)
    requires IsPlainKey(key) && (v.Integer? ==> IsInt64(v.n))
    ensures ReadLine(KeyLine(key, v)) == Assign(key, v)
  {
    var f := FormatValue(v);
    FormatEdges(v);
    FormatRead(key, v);
    hide FormatValue, ReadValue, ReadTrimmed, TrimLine, DropRight;
    if key == "" {
      KeylessLine(f);
      assert "=" + (" " + f) == "" + ['='] + (" " + f);
      EqualsRead("", f);
      assert DropRight("", IsBlank) == "";
    } else {
      KeyedLine(key, f);
      EqualsRead(key + " ", f);
      DropBlank(key);
    }
  }

  /** A line that reads as an assignment carries its key at its trimmed front, up to the first `=`. */
  lemma AssignedKey(l: string, key: string, v: ConfigValue)
    requires ReadTrimmed(l) == Assign(key, v)
    ensures key <= l && '=' !in key && (key != "" ==> !IsBlank(key[|key| - 1])) && l != "" && l[0] != '#'
  {
    var eq := IndexOf(l, '=');
    ReadsKey(DropRight(l[..eq], IsBlank), DropLeft(l[eq + 1..], IsBlank));
    hide IndexOf, ReadValue;
  }

  lemma ReadsKey(key: string, v: string)
    ensures ReadValue(key, v).Assign? ==> ReadValue(key, v).key == key
  {
    hide ParseInteger;
  }

  /** A key line is read back as that key and value exactly when the key is plain. */
  lemma KeyLineExactly(key: string, v: ConfigValue)
    requires IsOneLine(key) && (v.Integer? ==> IsInt64(v.n))
    ensures ReadLine(KeyLine(key, v)) == Assign(key, v) <==> IsPlainKey(key)
  {
    if IsPlainKey(key) { PlainKeyRead(key, v); }
    if ReadLine(KeyLine(key, v)) == Assign(key, v) {
      AssignedKey(TrimLine(KeyLine(key, v)), key, v);
      TrimmedEdges(KeyLine(key, v));
    }
    hide KeyLine, ReadTrimmed, TrimLine;
  }

  lemma {:induction false} DropRightKeeps(s: string)
    requires s != "" && !IsLineSpace(s[0])
    ensures DropRight(s, IsLineSpace) != "" && DropRight(s, IsLineSpace)[0] == s[0]
    decreases |s|
  {
    if IsLineSpace(s[|s| - 1]) { DropRightKeeps(s[..|s| - 1]); }
  }

  lemma TrimmedEdges(line: string)
    ensures TrimLine(line) != "" ==> !IsLineSpace(TrimLine(line)[0])
  {
    var l := DropLeft(line, IsLineSpace);
    if l != "" { DropRightKeeps(l); }
  }

  lemma BracketedLine(name: string)
    ensures var l := "[" + name + "]";
            |l| >= 2 && l[0] == '[' && l[|l| - 1] == ']' && l[1..|l| - 1] == name && TrimLine(l) == l
  {
    TrimNothing("[" + name + "]");
    hide TrimLine;
  }

  lemma SectionRead(name: string)
    ensures ReadLine("[" + name + "]") == Section(name)
  {
    BracketedLine(name);
    hide TrimLine, IndexOf, ReadValue, DropLeft, DropRight;
  }

  lemma CommentRead(description: string)
    ensures ReadLine("# " + description) == Nothing
  {
    DropRightKeeps("# " + description);
  }

  // ----- whole dumps

  /** `vs` after the entries of `done` have been loaded from its own dump. */
  ghost function Reloaded(vs: Values, done: set<(string, string)>): Values {
    map s | s in vs :: map k | k in vs[s] ::
      if (s, k) in done then vs[s][k].(fileOverride := Some(Effective(vs[s][k]))) else vs[s][k]
  }

  lemma SetReloaded(vs: Values, done: set<(string, string)>, s: string, k: string)
    requires s in vs && k in vs[s]
    ensures SetOverride(Reloaded(vs, done), s, k, Effective(vs[s][k])) == Reloaded(vs, done + {(s, k)})
  {
    var left, right := SetOverride(Reloaded(vs, done), s, k, Effective(vs[s][k])), Reloaded(vs, done + {(s, k)});
    assert left.Keys == right.Keys;
    forall s' | s' in vs
      ensures left[s'] == right[s']
    {
      if s' == s {
        assert left[s].Keys == right[s].Keys;
      } else {
        assert left[s'] == Reloaded(vs, done)[s'];
      }
    }
  }

  /** What a dump needs of one entry. */
  predicate IsPlainEntry(k: string, t: Tiered) {
    IsPlainKey(k) && IsPlainValue(Effective(t))
  }

  ghost function Entries(s: string, keys: seq<string>): set<(string, string)> {
    set k | k in keys :: (s, k)
  }

  predicate ArePlain(options: map<string, Tiered>, keys: seq<string>) {
    forall k | k in keys :: k in options && IsPlainEntry(k, options[k])
  }

  lemma LoadOne(m: Loader, line: string)
    ensures LoadLines(m, [line]) == LoadLine(m, line)
  {
    assert [line][1..] == [];
  }

  lemma CommentsIgnored(m: Loader, schemas: map<string, seq<ConfigOption>>, section: string, key: string)
    ensures LoadLines(m, CommentLines(schemas, section, key)) == m
  {
    if section in schemas && FindOption(schemas[section], key).Some? {
      var line := "# " + FindOption(schemas[section], key).value.description;
      CommentRead(FindOption(schemas[section], key).value.description);
      LoadOne(m, line);
    }
    hide ReadLine;
  }

  lemma KeyLoads(schemas: map<string, seq<ConfigOption>>, vs: Values, s: string, k: string, done: set<(string, string)>)
    requires s in vs && k in vs[s] && IsPlainEntry(k, vs[s][k])
    ensures LoadLines(Loader(s, Reloaded(vs, done), Going),
                      CommentLines(schemas, s, k) + [KeyLine(k, Effective(vs[s][k]))]) ==
            Loader(s, Reloaded(vs, done + {(s, k)}), Going)
  {
    var m, v := Loader(s, Reloaded(vs, done), Going), Effective(vs[s][k]);
    KeyLineExactly(k, v);
    SetReloaded(vs, done, s, k);
    CommentsIgnored(m, schemas, s, k);
    hide ReadLine, Reloaded, SetOverride, Effective, KeyLine, CommentLines, LoadLines;
    LoadConcat(m, CommentLines(schemas, s, k), [KeyLine(k, v)]);
    LoadOne(m, KeyLine(k, v));
  }

  /** Loading the lines of a section's keys overrides exactly those keys, with their effective values. */
  lemma {:induction false} KeysLoad(schemas: map<string, seq<ConfigOption>>, vs: Values, s: string, keys: seq<string>,
                                    done: set<(string, string)>)
    requires s in vs && ArePlain(vs[s], keys)
    ensures LoadLines(Loader(s, Reloaded(vs, done), Going), KeyLines(schemas, s, vs[s], keys)) ==
            Loader(s, Reloaded(vs, done + Entries(s, keys)), Going)
    decreases |keys|
  {
    hide Reloaded, Effective, KeyLine, CommentLines, LoadLine;
    var m := Loader(s, Reloaded(vs, done), Going);
    if keys == [] {
      assert done + Entries(s, keys) == done;
    } else {
      var k := keys[0];
      KeyLoads(schemas, vs, s, k, done);
      KeysLoad(schemas, vs, s, keys[1..], done + {(s, k)});
      EntriesCons(s, keys, done);
      LoadConcat(m, CommentLines(schemas, s, k) + [KeyLine(k, Effective(vs[s][k]))],
                 KeyLines(schemas, s, vs[s], keys[1..]));
      hide LoadLines, Entries;
    }
  }

  lemma EntriesCons(s: string, keys: seq<string>, done: set<(string, string)>)
    requires keys != []
    ensures done + {(s, keys[0])} + Entries(s, keys[1..]) == done + Entries(s, keys)
  {
    assert keys == [keys[0]] + keys[1..];
  }

  ghost predicate IsPlainWalk(vs: Values, order: Order) {
    forall i | 0 <= i < |order| :: order[i].0 in vs && ArePlain(vs[order[i].0], order[i].1)
  }

  ghost function Visited(order: Order): set<(string, string)> {
    if order == [] then {} else Entries(order[0].0, order[0].1) + Visited(order[1..])
  }

  lemma HeaderLoads(m: Loader, s: string)
    requires m.status == Going
    ensures LoadLines(m, ["[" + s + "]"]) == m.(section := s)
    ensures LoadLines(m, [""]) == m
  {
    SectionRead(s);
    LoadOne(m, "[" + s + "]");
    LoadOne(m, "");
    assert ReadLine("") == Nothing;
    hide ReadLine;
  }

  /** Loading a dump's lines overrides exactly the entries walked. */
  lemma {:induction false} DumpLoads(schemas: map<string, seq<ConfigOption>>, vs: Values, order: Order,
                                     section: string, done: set<(string, string)>)
    requires IsPlainWalk(vs, order)
    ensures var end := LoadLines(Loader(section, Reloaded(vs, done), Going), DumpLines(schemas, vs, order));
            end.status == Going && end.values == Reloaded(vs, done + Visited(order))
    decreases |order|
  {
    hide Reloaded, KeyLines;
    if order == [] {
      assert done + Visited(order) == done;
    } else {
      var m := Loader(section, Reloaded(vs, done), Going);
      var s, keys := order[0].0, order[0].1;
      var m1 := m.(section := s);
      var m2 := Loader(s, Reloaded(vs, done + Entries(s, keys)), Going);
      var header, body := ["[" + s + "]"], KeyLines(schemas, s, vs[s], keys);
      HeaderLoads(m, s);
      KeysLoad(schemas, vs, s, keys, done);
      HeaderLoads(m2, s);
      DumpLoads(schemas, vs, order[1..], s, done + Entries(s, keys));
      assert done + Entries(s, keys) + Visited(order[1..]) == done + Visited(order);
      hide LoadLines, Entries, Visited, ArePlain;
      LoadConcat(m, header, body);
      LoadConcat(m, header + body, [""]);
      LoadConcat(m, header + body + [""], DumpLines(schemas, vs, order[1..]));
    }
  }

  // ----- the dump as text

  predicate AreDescribed(options: seq<ConfigOption>) {
    forall o | o in options :: IsOneLine(o.description)
  }

  ghost predicate HasOneLineDescriptions(schemas: map<string, seq<ConfigOption>>) {
    forall s | s in schemas :: AreDescribed(schemas[s])
  }

  lemma {:induction false} FoundDescription(options: seq<ConfigOption>, key: string)
    requires AreDescribed(options) && FindOption(options, key).Some?
    ensures IsOneLine(FindOption(options, key).value.description)
  {
    if options[0].key != key { FoundDescription(options[1..], key); }
  }

  lemma KeyLineOneLine(key: string, v: ConfigValue)
    requires IsOneLine(key) && IsPlainValue(v)
    ensures IsOneLine(KeyLine(key, v))
  {
    if v.Integer? { DecimalCharacters(v.n); }
    hide ToDecimal;
  }

  lemma {:induction false} KeyLinesOneLine(schemas: map<string, seq<ConfigOption>>, s: string,
                                           options: map<string, Tiered>, keys: seq<string>)
    requires HasOneLineDescriptions(schemas) && ArePlain(options, keys)
    ensures AllOneLine(KeyLines(schemas, s, options, keys))
    decreases |keys|
  {
    if keys != [] {
      KeyLinesOneLine(schemas, s, options, keys[1..]);
      KeyLineOneLine(keys[0], Effective(options[keys[0]]));
      if s in schemas && FindOption(schemas[s], keys[0]).Some? { FoundDescription(schemas[s], keys[0]); }
      hide KeyLine, IsPlainKey;
    }
  }

  lemma {:induction false} DumpOneLine(schemas: map<string, seq<ConfigOption>>, vs: Values, order: Order)
    requires HasOneLineDescriptions(schemas) && IsPlainWalk(vs, order)
    requires forall s | s in vs :: IsOneLine(s)
    ensures AllOneLine(DumpLines(schemas, vs, order))
    decreases |order|
  {
    if order != [] {
      DumpOneLine(schemas, vs, order[1..]);
      KeyLinesOneLine(schemas, order[0].0, vs[order[0].0], order[0].1);
      assert IsOneLine("[" + order[0].0 + "]") && IsOneLine("");
      hide KeyLines, ArePlain;
    }
  }

  lemma {:induction false} VisitedAll(order: Order, i: nat, k: string)
    requires i < |order| && k in order[i].1
    ensures (order[i].0, k) in Visited(order)
    decreases |order|
  {
    if i > 0 { VisitedAll(order[1..], i - 1, k); }
  }

  lemma NothingReloaded(vs: Values)
    ensures Reloaded(vs, {}) == vs
  {
    forall s | s in vs
      ensures Reloaded(vs, {})[s] == vs[s]
    {
      assert Reloaded(vs, {})[s].Keys == vs[s].Keys;
    }
  }

  ghost predicate IsPlainConfig(vs: Values) {
    forall s | s in vs :: IsOneLine(s) && forall k | k in vs[s] :: IsPlainEntry(k, vs[s][k])
  }

  /**
   * A manager that loads its own dump, walked in any order, keeps exactly its entries, sets every
   * file override to the value that was effective, and touches nothing else.
   */
  lemma DumpThenLoad(schemas: map<string, seq<ConfigOption>>, vs: Values, order: Order)
    requires Walks(order, vs) && IsPlainConfig(vs) && HasOneLineDescriptions(schemas)
    ensures var end := Load(vs, Dump(schemas, vs, order));
            && end.status == Going && end.values.Keys == vs.Keys
            && forall s | s in vs ::
                 && end.values[s].Keys == vs[s].Keys
                 && forall k | k in vs[s] :: end.values[s][k] == vs[s][k].(fileOverride := Some(Effective(vs[s][k])))
  {
    assert IsPlainWalk(vs, order);
    DumpOneLine(schemas, vs, order);
    LinesOfUnlines(DumpLines(schemas, vs, order));
    NothingReloaded(vs);
    DumpLoads(schemas, vs, order, FIRST_SECTION, {});
    assert {} + Visited(order) == Visited(order);
    forall s, k | s in vs && k in vs[s]
      ensures (s, k) in Visited(order)
    {
      assert Visits(order, s, k);
      var i :| 0 <= i < |order| && order[i].0 == s && k in order[i].1;
      VisitedAll(order, i, k);
    }
    hide LoadLines, DumpLines, Lines, Unlines, IsPlainWalk, Visited;
  }

  /** So no effective value changes. */
  lemma EffectiveUnchanged(schemas: map<string, seq<ConfigOption>>, vs: Values, order: Order, s: string, k: string)
    requires Walks(order, vs) && IsPlainConfig(vs) && HasOneLineDescriptions(schemas)
    requires s in vs && k in vs[s]
    ensures var after := Load(vs, Dump(schemas, vs, order)).values;
            s in after && k in after[s] && Effective(after[s][k]) == Effective(vs[s][k])
  {
    DumpThenLoad(schemas, vs, order);
    hide Load, Dump, Walks;
  }

  // ----- what no file can carry

  lemma {:induction false} LinesAreOneLine(line: string, text: string)
    requires IsOneLine(line)
    ensures AllOneLine(LinesFrom(line, text))
    decreases |text|
  {
    if text != "" {
      if text[0] == '\n' {
        LinesAreOneLine("", text[1..]);
      } else {
        LinesAreOneLine(line + [text[0]], text[1..]);
      }
    }
  }

  predicate IsPart(part: string, s: string) {
    forall c | c in part :: c in s
  }

  lemma {:induction false} DropLeftPart(s: string, p: char -> bool)
    ensures IsPart(DropLeft(s, p), s)
  {
    if s != "" && p(s[0]) { DropLeftPart(s[1..], p); }
  }

  lemma TrimPart(s: string)
    ensures IsPart(TrimLine(s), s)
  {
    DropLeftPart(s, IsLineSpace);
  }

  lemma ValuePlain(key: string, v: string)
    requires IsOneLine(v)
    ensures ReadValue(key, v).Assign? ==> IsPlainValue(ReadValue(key, v).value)
  {}

  lemma LinePlain(line: string)
    requires IsOneLine(line)
    ensures ReadLine(line).Assign? ==> IsPlainValue(ReadLine(line).value)
  {
    var l := TrimLine(line);
    TrimPart(line);
    var eq := IndexOf(l, '=');
    if eq < |l| {
      DropLeftPart(l[eq + 1..], IsBlank);
      ValuePlain(DropRight(l[..eq], IsBlank), DropLeft(l[eq + 1..], IsBlank));
    }
    hide TrimLine, IndexOf, ReadValue, IsPlainValue, DropLeft, DropRight;
  }

  /** The override of an entry, if it exists. */
  function OverrideOf(vs: Values, s: string, k: string): Option<ConfigValue> {
    if s in vs && k in vs[s] then vs[s][k].fileOverride else None
  }

  lemma {:induction false} OverridesPlain(m: Loader, lines: seq<string>, s: string, k: string)
    requires AllOneLine(lines)
    ensures var o := OverrideOf(LoadLines(m, lines).values, s, k);
            o == OverrideOf(m.values, s, k) || (o.Some? && IsPlainValue(o.value))
    decreases |lines|
  {
    hide ReadLine;
    if lines != [] {
      LinePlain(lines[0]);
      OverridesPlain(LoadLine(m, lines[0]), lines[1..], s, k);
    }
  }

  /**
   * The condition on values is needed: whatever text is loaded, an entry can end up overridden by a
   * value only if that value was its override before or is one the format can carry.
   */
  lemma OnlyPlainValuesLoad(vs: Values, text: string, s: string, k: string, v: ConfigValue)
    requires OverrideOf(vs, s, k) != Some(v)
    ensures OverrideOf(Load(vs, text).values, s, k) == Some(v) ==> IsPlainValue(v)
  {
    LinesAreOneLine("", text);
    OverridesPlain(Loader(FIRST_SECTION, vs, Going), Lines(text), s, k);
  }
}
