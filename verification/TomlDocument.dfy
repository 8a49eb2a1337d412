/** Whole documents of src/format/toml.cpp: writing a dictionary under headers, and reading the lines of a
    document into the table tree. */
module TomlDocument {
  import opened Wrappers
  import opened SortedMaps
  import opened Utf8
  import opened TomlText
  import opened TomlTree
  import opened TomlLeaves
  import opened TomlValues

  // ---- writing ----

  /** An array that is written with a header for each element. */
  predicate IsArrayOfTables(v: Value) {
    v.List? && v.elements != [] && forall i :: 0 <= i < |v.elements| ==> v.elements[i].Dict?
  }

  predicate WrittenAsTable(v: Value) {
    v.Dict? || IsArrayOfTables(v)
  }

  /** join_path() */
  function JoinPath(path: seq<string>): string {
    if path == [] then ""
    else EscapeKey(path[0]) + (if |path| == 1 then "" else "." + JoinPath(path[1..]))
  }

  function HeaderText(path: seq<string>, isArray: bool): string {
    if isArray then "\n[[" + JoinPath(path) + "]]\n" else "\n[" + JoinPath(path) + "]\n"
  }

  predicate AllValid(es: seq<Pair<Value>>) {
    forall i :: 0 <= i < |es| ==> Valid(es[i].value)
  }

  /** serialize_dictionary(): the pairs, then the tables, each under its header. */
  function WriteDictionary(es: seq<Pair<Value>>, path: seq<string>): string
    requires AllValid(es)
    decreases es, 2
  {
    WriteLines(es) + WriteTables(es, path)
  }

  function WriteLines(es: seq<Pair<Value>>): string
    requires AllValid(es)
    decreases es, 0
  {
    if es == [] then ""
    else
      (if WrittenAsTable(es[0].value) then "" else EscapeKey(es[0].key) + " = " + WriteValue(es[0].value) + "\n")
      + WriteLines(es[1..])
  }

  function WriteTables(es: seq<Pair<Value>>, path: seq<string>): string
    requires AllValid(es)
    decreases es, 1
  {
    if es == [] then ""
    else
      (if WrittenAsTable(es[0].value) then WriteTable(es[0].value, path + [es[0].key]) else "")
      + WriteTables(es[1..], path)
  }

  function WriteTable(v: Value, path: seq<string>): string
    requires Valid(v) && WrittenAsTable(v)
    decreases v, 3
  {
    if v.Dict? then HeaderText(path, false) + WriteDictionary(v.entries, path)
    else WriteArrayOfTables(v.elements, path)
  }

  function WriteArrayOfTables(vs: seq<Value>, path: seq<string>): string
    requires forall i :: 0 <= i < |vs| ==> Valid(vs[i]) && vs[i].Dict?
    decreases vs, 0
  {
    if vs == [] then ""
    else
      assert Valid(vs[0]);
      HeaderText(path, true) + WriteDictionary(vs[0].entries, path) + WriteArrayOfTables(vs[1..], path)
  }

  /** serialize(): fails for a NaN, and for a string or key that is not valid UTF-8. */
  function Serialize(es: seq<Pair<Value>>): Option<string>
    requires Valid(Dict(es))
  {
    if HasNan(Dict(es)) then None
    else
      var text := WriteDictionary(es, []);
      if IsUtf8(text) then Some(text) else None
  }

  // ---- reading ----

  /** A line of a document: a header, or a pair. */
  datatype Event = Header(path: seq<string>, isArray: bool) | Line(keys: seq<string>, value: Value)

  /** The tree so far, and the path of the table that the last header opened. */
  datatype State = State(root: Node, path: seq<string>)

  predicate IsState(st: State) {
    Sound(st.root) && !st.root.isArray && Reaches(st.root, st.path)
  }

  predicate IsEvent(e: Event) {
    match e
    case Header(path, _) => path != []
    case Line(keys, _) => keys != []
  }

  /** parse_table_header() */
  function ReadHeader(s: string): (r: Parsed<Event>)
    requires Peek(s, 0) == '['
    ensures r.Done? ==> |r.rest| < |s| && IsEvent(r.value)
  {
    var isArray := Peek(s, 1) == '[';
    match ReadKeys(SkipSpace(if isArray then s[2..] else s[1..]))
    case Failed => Failed
    case Done(keys, t) =>
      if Peek(t, 0) != ']' then Failed
      else if !isArray then Done(Header(keys, false), t[1..])
      else if Peek(t, 1) != ']' then Failed
      else Done(Header(keys, true), t[2..])
  }

  /** A header or a pair, and the end of its line. */
  function ReadItem(s: string): (r: Parsed<Event>)
    ensures r.Done? ==> |r.rest| < |s| && IsEvent(r.value)
  {
    if Peek(s, 0) == '[' then
      match ReadHeader(s)
      case Failed => Failed
      case Done(e, rest) => LineEnd(e, rest)
    else
      match ReadPair(s)
      case Failed => Failed
      case Done(pair, rest) => LineEnd(Line(pair.keys, pair.value), rest)
  }

  /** expect_line_end() */
  function LineEnd(e: Event, rest: string): (r: Parsed<Event>)
    ensures r.Done? ==> |r.rest| <= |rest| && r.value == e
  {
    var t := SkipSpace(rest);
    if t != "" && t[0] != '\n' && t[0] != '#' then Failed else Done(e, t)
  }

  function Apply(st: State, e: Event): Option<State>
    requires IsState(st) && IsEvent(e)
  {
    match e
    case Header(path, isArray) =>
      (match Open(st.root, path, isArray)
       case None => None
       case Some(root) => Some(State(root, path)))
    case Line(keys, v) =>
      (match AddAt(st.root, st.path, keys, v)
       case None => None
       case Some(root) => Some(State(root, st.path)))
  }

  /** Every accepted header or pair keeps the tree sound and the last opened table in it. */
  lemma ApplyKeeps(st: State, e: Event)
    requires IsState(st) && IsEvent(e) && Apply(st, e).Some?
    ensures IsState(Apply(st, e).value)
  {
    hide Sound, Reaches;
    match e {
      case Header(path, isArray) => OpenSound(st.root, path, isArray);
      case Line(keys, v) => PairAddsOneLeaf(st.root, st.path, keys, v);
    }
  }

  /** The state after some lines, if all of them are accepted. */
  function ApplyAll(st: State, events: seq<Event>): (r: Option<State>)
    requires IsState(st) && forall i :: 0 <= i < |events| ==> IsEvent(events[i])
    ensures r.Some? ==> IsState(r.value)
    decreases |events|
  {
    if events == [] then Some(st)
    else
      match Apply(st, events[0])
      case None => None
      case Some(next) =>
        ApplyKeeps(st, events[0]);
        ApplyAll(next, events[1..])
  }

  predicate AllEvents(events: seq<Event>) {
    forall i :: 0 <= i < |events| ==> IsEvent(events[i])
  }

  /** parse_document() */
  function Document(s: string, st: State): (r: Option<State>)
    requires IsState(st)
    ensures r.Some? ==> IsState(r.value)
    decreases |s|
  {
    var t := SkipBlank(s);
    if t == "" then Some(st)
    else
      match ReadItem(t)
      case Failed => None
      case Done(e, rest) =>
        match Apply(st, e)
        case None => None
        case Some(next) =>
          ApplyKeeps(st, e);
          Document(rest, next)
  }

  /** deserialize() */
  function Deserialize(s: string): Option<seq<Pair<Value>>> {
    if s == "" then Some([])
    else if !IsUtf8(s) then None
    else
      FreshState();
      match Document(s, State(FRESH, []))
      case None => None
      case Some(st) => Some(Merge(st.root))
  }

  lemma FreshState()
    ensures IsState(State(FRESH, []))
  {
  }
}
