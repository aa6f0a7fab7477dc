/** The configuration manager's values, the file format it loads and the text it dumps. */
module Configuration {
  import opened Decimals
  import opened Options
  import opened Sequences

  datatype ConfigValue = Boolean(b: bool) | Integer(n: int) | Text(s: string)

  datatype Tiered = Tiered(
    systemDefault: ConfigValue,
    fileOverride: Option<ConfigValue>,
    cliOverride: Option<ConfigValue>)

  type Values = map<string, map<string, Tiered>>

  datatype ConfigOption = ConfigOption(key: string, defaultValue: ConfigValue, description: string)

  function ValueOr(o: Option<ConfigValue>, v: ConfigValue): ConfigValue {
    if o.Some? then o.value else v
  }

  /** Command line over file over system default. */
  function Effective(t: Tiered): ConfigValue {
    ValueOr(t.cliOverride, ValueOr(t.fileOverride, t.systemDefault))
  }

  function FormatValue(v: ConfigValue): string {
    match v
    case Boolean(b) => if b then "true" else "false"
    case Integer(n) => ToDecimal(n)
    case Text(s) => "\"" + s + "\""
  }

  // ----- lines

  /** What `std::getline` yields: the text up to each newline, and what follows the last one unless it is empty. */
  function Lines(text: string): seq<string> {
    LinesFrom("", text)
  }

  function LinesFrom(line: string, text: string): seq<string>
    decreases |text|
  {
    if text == "" then (if line == "" then [] else [line])
    else if text[0] == '\n' then [line] + LinesFrom("", text[1..])
    else LinesFrom(line + [text[0]], text[1..])
  }

  predicate IsOneLine(s: string) {
    '\n' !in s
  }

  predicate IsBlank(c: char) {
    c == ' ' || c == '\t'
  }

  /** The characters trimmed from a line. */
  predicate IsLineSpace(c: char) {
    IsBlank(c) || c == '\r' || c == '\n'
  }

  function DropLeft(s: string, p: char -> bool): (r: string)
    ensures r != "" ==> !p(r[0])
    ensures s != "" && !p(s[0]) ==> r == s
  {
    if s != "" && p(s[0]) then DropLeft(s[1..], p) else s
  }

  function DropRight(s: string, p: char -> bool): (r: string)
    ensures r != "" ==> !p(r[|r| - 1])
    ensures s != "" && !p(s[|s| - 1]) ==> r == s
    ensures r <= s
  {
    if s != "" && p(s[|s| - 1]) then DropRight(s[..|s| - 1], p) else s
  }

  function TrimLine(s: string): string {
    DropRight(DropLeft(s, IsLineSpace), IsLineSpace)
  }

  // ----- loading

  /** What a line asks for. `Fails` is an exception; `Unmodelled` a fractional number or a missing value. */
  datatype Meaning =
    | Nothing
    | Section(name: string)
    | Assign(key: string, value: ConfigValue)
    | Fails
    | Unmodelled

  function ReadValue(key: string, v: string): Meaning {
    if v == "true" then Assign(key, Boolean(true))
    else if v == "false" then Assign(key, Boolean(false))
    else if v == "" then Unmodelled
    else if v[0] == '"' && v[|v| - 1] == '"' then Assign(key, Text(if |v| == 1 then "" else v[1..|v| - 1]))
    else if '.' in v then Unmodelled
    else
      match ParseInteger(v)
      case Number(n) => Assign(key, Integer(n))
      case NoNumber => Fails
  }

  function ReadTrimmed(l: string): Meaning {
    if l == "" || l[0] == '#' then Nothing
    else if l[0] == '[' && l[|l| - 1] == ']' then Section(l[1..|l| - 1])
    else
      var eq := IndexOf(l, '=');
      if eq == |l| then Nothing
      else ReadValue(DropRight(l[..eq], IsBlank), DropLeft(l[eq + 1..], IsBlank))
  }

  function ReadLine(line: string): Meaning {
    ReadTrimmed(TrimLine(line))
  }

  datatype Status = Going | Threw | Left

  datatype Loader = Loader(section: string, values: Values, status: Status)

  const FIRST_SECTION := "global"

  /** What indexing makes of an absent entry. */
  const ABSENT := Tiered(Boolean(false), None, None)

  function SetOverride(vs: Values, section: string, key: string, v: ConfigValue): Values {
    var options := if section in vs then vs[section] else map[];
    var t := if key in options then options[key] else ABSENT;
    vs[section := options[key := t.(fileOverride := Some(v))]]
  }

  function LoadLine(m: Loader, line: string): Loader {
    if m.status != Going then m
    else
      match ReadLine(line)
      case Nothing => m
      case Section(name) => m.(section := name)
      case Assign(key, v) => m.(values := SetOverride(m.values, m.section, key, v))
      case Fails => m.(status := Threw)
      case Unmodelled => m.(status := Left)
  }

  function LoadLines(m: Loader, lines: seq<string>): Loader
    decreases |lines|
  {
    if lines == [] then m else LoadLines(LoadLine(m, lines[0]), lines[1..])
  }

  function Load(vs: Values, text: string): Loader {
    LoadLines(Loader(FIRST_SECTION, vs, Going), Lines(text))
  }

  // ----- dumping

  /** One way of walking the hash maps: sections, each with its keys. */
  type Order = seq<(string, seq<string>)>

  /** A walk stays inside the maps and misses nothing. */
  ghost predicate Walks(order: Order, vs: Values) {
    && (forall i | 0 <= i < |order| ::
          order[i].0 in vs && forall k | k in order[i].1 :: k in vs[order[i].0])
    && (forall s, k | s in vs && k in vs[s] :: Visits(order, s, k))
  }

  ghost predicate Visits(order: Order, s: string, k: string) {
    exists i | 0 <= i < |order| :: order[i].0 == s && k in order[i].1
  }

  function FindOption(options: seq<ConfigOption>, key: string): Option<ConfigOption> {
    if options == [] then None
    else if options[0].key == key then Some(options[0])
    else FindOption(options[1..], key)
  }

  /** The comment above a key, when its section's schema describes it. */
  function CommentLines(schemas: map<string, seq<ConfigOption>>, section: string, key: string): seq<string> {
    if section !in schemas then []
    else
      match FindOption(schemas[section], key)
      case None => []
      case Some(o) => ["# " + o.description]
  }

  function KeyLine(key: string, v: ConfigValue): string {
    key + " = " + FormatValue(v)
  }

  function KeyLines(schemas: map<string, seq<ConfigOption>>, section: string, options: map<string, Tiered>,
                    keys: seq<string>): seq<string>
    requires forall k | k in keys :: k in options
  {
    if keys == [] then []
    else
      CommentLines(schemas, section, keys[0]) + [KeyLine(keys[0], Effective(options[keys[0]]))] +
      KeyLines(schemas, section, options, keys[1..])
  }

  function DumpLines(schemas: map<string, seq<ConfigOption>>, vs: Values, order: Order): seq<string>
    requires forall i | 0 <= i < |order| ::
               order[i].0 in vs && forall k | k in order[i].1 :: k in vs[order[i].0]
  {
    if order == [] then []
    else
      var section := order[0].0;
      ["[" + section + "]"] + KeyLines(schemas, section, vs[section], order[0].1) + [""] +
      DumpLines(schemas, vs, order[1..])
  }

  function Unlines(lines: seq<string>): string {
    if lines == [] then "" else lines[0] + "\n" + Unlines(lines[1..])
  }

  function Dump(schemas: map<string, seq<ConfigOption>>, vs: Values, order: Order): string
    requires forall i | 0 <= i < |order| ::
               order[i].0 in vs && forall k | k in order[i].1 :: k in vs[order[i].0]
  {
    Unlines(DumpLines(schemas, vs, order))
  }
}
