/** The configuration manager: its value map, updated line by line, and its dump. */
module ConfigManager {
  import opened Decimals
  import opened Options
  import opened Sequences
  import opened Configuration
  import opened ConfigurationRoundTrip

  class ConfigManager {
    var values: Values
    var schemas: map<string, seq<ConfigOption>>

    constructor ()
      ensures values == map[] && schemas == map[]
    {
      values, schemas := map[], map[];
    }

    /** `m_values[section][key].fileOverride = v`, making absent entries on the way. */
    method Assign(section: string, key: string, v: ConfigValue)
      modifies this`values
      ensures values == SetOverride(old(values), section, key, v)
    {
      if section !in values {
        values := values[section := map[]];
      }
      if key !in values[section] {
        values := values[section := values[section][key := ABSENT]];
      }
      var t := values[section][key].(fileOverride := Some(v));
      values := values[section := values[section][key := t]];
      SetTwice(old(values), section, key, v, values);
    }

    static lemma SetTwice(before: Values, section: string, key: string, v: ConfigValue, after: Values)
      requires after.Keys == before.Keys + {section}
      requires forall s | s in before && s != section :: after[s] == before[s]
      requires var options := if section in before then before[section] else map[];
               && after[section].Keys == options.Keys + {key}
               && (forall k | k in options && k != key :: after[section][k] == options[k])
               && after[section][key] == (if key in options then options[key] else ABSENT).(fileOverride := Some(v))
      ensures after == SetOverride(before, section, key, v)
    {
      var options := if section in before then before[section] else map[];
      assert after[section] == SetOverride(before, section, key, v)[section];
    }

    method AssignValue(section: string, key: string, v: string) returns (status: Status)
      modifies this`values
      ensures Loader(section, values, status) ==
              match ReadValue(key, v)
              case Assign(_, value) => Loader(section, SetOverride(old(values), section, key, value), Going)
              case Fails => Loader(section, old(values), Threw)
              case _ => Loader(section, old(values), Left)
    {
      status := Going;
      if v == "true" {
        Assign(section, key, Boolean(true));
      } else if v == "false" {
        Assign(section, key, Boolean(false));
      } else if v == "" {
        status := Left;
      } else if v[0] == '"' && v[|v| - 1] == '"' {
        Assign(section, key, Text(if |v| == 1 then "" else v[1..|v| - 1]));
      } else if '.' in v {
        status := Left;
      } else {
        match ParseInteger(v)
        case Number(n) => Assign(section, key, Integer(n));
        case NoNumber => status := Threw;
      }
    }

    /** One turn of the loading loop. */
    method HandleLine(line: string, section: string) returns (next: string, status: Status)
      modifies this`values
      ensures Loader(next, values, status) == LoadLine(Loader(section, old(values), Going), line)
    {
      hide SetOverride, ReadValue;
      var l := TrimLine(line);
      next, status := section, Going;
      if l == "" || l[0] == '#' { return; }
      if l[0] == '[' && l[|l| - 1] == ']' {
        next := l[1..|l| - 1];
        return;
      }
      var eq := IndexOf(l, '=');
      if eq == |l| { return; }
      var key, v := DropRight(l[..eq], IsBlank), DropLeft(l[eq + 1..], IsBlank);
      status := AssignValue(section, key, v);
      ReadsKey(key, v);
      AssignsOnly(key, v);
    }

    static lemma AssignsOnly(key: string, v: string)
      ensures !ReadValue(key, v).Nothing? && !ReadValue(key, v).Section?
    {
      hide ParseInteger;
    }

    /** `std::getline` from `start`: the line, and where the next one begins. */
    static method GetLine(text: string, start: nat) returns (line: string, next: nat)
      requires start < |text|
      ensures start < next <= |text|
      ensures LinesFrom("", text[start..]) == [line] + LinesFrom("", text[next..])
    {
      line, next := "", start;
      while next < |text| && text[next] != '\n'
        invariant start <= next <= |text|
        invariant line == text[start..next]
        invariant LinesFrom("", text[start..]) == LinesFrom(line, text[next..])
      {
        assert text[next..][1..] == text[next + 1..];
        line := line + [text[next]];
        next := next + 1;
      }
      if next < |text| {
        assert text[next..][1..] == text[next + 1..];
        next := next + 1;
      } else {
        assert text[next..] == "" && line != "";
      }
    }

    method LoadTomlFile(text: string) returns (status: Status)
      modifies this`values
      ensures values == Load(old(values), text).values && status == Load(old(values), text).status
    {
      hide LoadLine, LinesFrom;
      var section, position := FIRST_SECTION, 0;
      status := Going;
      assert text[0..] == text;
      while status == Going && position < |text|
        invariant position <= |text|
        invariant LoadLines(Loader(section, values, status), LinesFrom("", text[position..])) == Load(old(values), text)
        decreases |text| - position, status == Going
      {
        var line, next := GetLine(text, position);
        assert ([line] + LinesFrom("", text[next..]))[1..] == LinesFrom("", text[next..]);
        section, status := HandleLine(line, section);
        position := next;
      }
      if status == Going {
        NoMoreLines(text[position..]);
      } else {
        Stopped(Loader(section, values, status), LinesFrom("", text[position..]));
      }
    }

    static lemma NoMoreLines(text: string)
      requires text == ""
      ensures LinesFrom("", text) == []
    {}

    static lemma {:induction false} Stopped(m: Loader, lines: seq<string>)
      requires m.status != Going
      ensures LoadLines(m, lines) == m
      decreases |lines|
    {
      if lines != [] { Stopped(m, lines[1..]); }
    }

    method DumpKey(os: string, section: string, key: string) returns (r: string)
      requires section in values && key in values[section]
      ensures r == os + Unlines(CommentLines(schemas, section, key) + [KeyLine(key, Effective(values[section][key]))])
    {
      r := os;
      if section in schemas {
        var found := FindOption(schemas[section], key);
        if found.Some? {
          r := r + ("# " + found.value.description + "\n");
          UnlinesOne("# " + found.value.description);
        }
      }
      var line := KeyLine(key, Effective(values[section][key]));
      r := r + (line + "\n");
      UnlinesOne(line);
      UnlinesConcat(CommentLines(schemas, section, key), [line]);
    }

    /** Writes to the end of `os`, walking the maps in the given order. */
    method DumpResolvedConfig(os: string, order: Order) returns (r: string)
      requires Walks(order, values)
      ensures r == os + Dump(schemas, values, order)
    {
      hide Walks, KeyLine, CommentLines, Effective;
      assert IsInside(order) by { WalksInside(order); }
      r := os;
      var i := 0;
      assert order[0..] == order;
      while i < |order|
        invariant 0 <= i <= |order| && IsInside(order[i..])
        invariant r + Unlines(DumpLines(schemas, values, order[i..])) == os + Dump(schemas, values, order)
      {
        var section, keys := order[i].0, order[i].1;
        assert order[i..][1..] == order[i + 1..];
        r := DumpSection(r, section, keys, order[i..]);
        i := i + 1;
      }
      assert order[i..] == [];
    }

    ghost predicate IsInside(order: Order)
      reads this
    {
      forall i | 0 <= i < |order| ::
        order[i].0 in values && forall k | k in order[i].1 :: k in values[order[i].0]
    }

    lemma WalksInside(order: Order)
      requires Walks(order, values)
      ensures IsInside(order)
    {}

    method DumpKeys(os: string, section: string, keys: seq<string>) returns (r: string)
      requires section in values && forall k | k in keys :: k in values[section]
      ensures r == os + Unlines(KeyLines(schemas, section, values[section], keys))
    {
      hide KeyLine, CommentLines, Effective;
      r := os;
      var j := 0;
      assert keys[0..] == keys;
      while j < |keys|
        invariant 0 <= j <= |keys|
        invariant r + Unlines(KeyLines(schemas, section, values[section], keys[j..])) ==
                  os + Unlines(KeyLines(schemas, section, values[section], keys))
      {
        assert keys[j..][1..] == keys[j + 1..];
        ghost var line := KeyLine(keys[j], Effective(values[section][keys[j]]));
        ghost var one := CommentLines(schemas, section, keys[j]) + [line];
        r := DumpKey(r, section, keys[j]);
        UnlinesConcat(one, KeyLines(schemas, section, values[section], keys[j + 1..]));
        j := j + 1;
      }
    }

    /** One section: its header, its keys and the blank line after them. */
    method DumpSection(os: string, section: string, keys: seq<string>, ghost order: Order) returns (r: string)
      requires order != [] && order[0] == (section, keys) && IsInside(order)
      ensures IsInside(order[1..])
      ensures r + Unlines(DumpLines(schemas, values, order[1..])) == os + Unlines(DumpLines(schemas, values, order))
    {
      r := DumpKeys(os + ("[" + section + "]\n"), section, keys);
      r := r + "\n";
      ghost var header, all := "[" + section + "]", KeyLines(schemas, section, values[section], keys);
      ghost var rest := DumpLines(schemas, values, order[1..]);
      assert DumpLines(schemas, values, order) == [header] + all + [""] + rest;
      SectionText(header, all, rest);
      assert "[" + section + "]\n" == header + "\n";
      hide KeyLines, Unlines, DumpLines;
      Regroup(os, header + "\n", Unlines(all), "\n", Unlines(rest));
    }

    static lemma Regroup(a: string, b: string, c: string, d: string, e: string)
      ensures a + b + c + d + e == a + (b + c + d + e)
    {}

    static lemma SectionText(header: string, keys: seq<string>, rest: seq<string>)
      ensures Unlines([header] + keys + [""] + rest) == (header + "\n") + Unlines(keys) + "\n" + Unlines(rest)
    {
      UnlinesConcat([header] + keys + [""], rest);
      UnlinesConcat([header] + keys, [""]);
      UnlinesConcat([header], keys);
      UnlinesOne(header);
      UnlinesOne("");
      assert "" + "\n" == "\n";
    }
  }
}
