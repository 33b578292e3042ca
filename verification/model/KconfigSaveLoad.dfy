/** Writing minimal configurations to a file, and loading them, on a live evaluator. */
module KconfigSaveLoad {
  import opened Basics
  import opened KconfigModel
  import opened KconfigEval
  import opened KconfigReads
  import opened KconfigScratch
  import opened KconfigChoice
  import opened KconfigCache
  import opened KconfigMinConfig
  import opened KconfigStrings
  import opened KconfigText

  // ---- The text of a file ----

  /** `config_string`: a bool or tristate that is n is commented out, strings are quoted and escaped. */
  function ConfigString(item: Item, val: string): string
    requires item.Symbol?
  {
    if item.orig == UNKNOWN then "" else ConfigLine(item, val) + "\n"
  }

  function ConfigLine(item: Item, val: string): string
    requires item.Symbol?
  {
    if item.orig.Logical() && val == "n" then Unsets(item.name)
    else Assigns(item.name, if item.orig == STRING then InQuotes(val) else val)
  }

  /** The text written for symbol `i`, if it is written at all. */
  ghost function TextOf(s: Scope, i: Id): Option<string> {
    if Written(s, i) == Some(true) then s.AtomStr(Sym(i)) else None
  }

  ghost function Texts(s: Scope): (texts: seq<Option<string>>)
    ensures |texts| == |s.cfg.items| && forall i :: 0 <= i < |texts| ==> texts[i] == TextOf(s, i)
  {
    seq(|s.cfg.items|, i requires 0 <= i => TextOf(s, i))
  }

  function Chunk(item: Item, text: Option<string>): string {
    if item.Symbol? && text.Some? then ConfigString(item, text.value) else ""
  }

  /** What symbols `k` and up contribute to the file. */
  function FileFrom(cfg: Config, texts: seq<Option<string>>, k: nat): string
    requires k <= |texts|
    decreases |texts| - k
  {
    if k == |texts| then "" else Chunk(cfg.At(k), texts[k]) + FileFrom(cfg, texts, k + 1)
  }

  /** The minimal configuration of the values in `s`. */
  ghost function MinConfig(s: Scope): string { FileFrom(s.cfg, Texts(s), 0) }

  // ---- Reading a file ----

  /** The symbol of a name, from index `k` on. */
  function Lookup(cfg: Config, name: string, k: nat): (r: Option<Id>)
    requires k <= |cfg.items|
    ensures r.Some? ==> r.value < |cfg.items| && cfg.items[r.value].Symbol? && cfg.items[r.value].name == name
    decreases |cfg.items| - k
  {
    if k == |cfg.items| then None
    else if cfg.items[k].Symbol? && cfg.items[k].name == name then Some(k)
    else Lookup(cfg, name, k + 1)
  }

  /** The value on the right of an assignment. For bools and tristates the first character decides. */
  function RightSide(t: Type, val: string): Option<Given> {
    if t.Logical() then
      if val != [] && val[0] == 'y' then Some(GivenTri(2))
      else if val != [] && val[0] == 'n' then Some(GivenTri(0))
      else if val != [] && val[0] == 'm' && t == TRISTATE then Some(GivenTri(1))
      else None
    else if t == STRING then
      var body :- Literal(val);
      Some(GivenStr(Unescape(body)))
    else Some(GivenStr(val))
  }

  /** What a line asks for; None if it is malformed or for no symbol. */
  function Entry(cfg: Config, line: string): (r: Option<(Id, Given)>)
    ensures r.Some? ==> r.value.0 < |cfg.items| && cfg.items[r.value.0].Symbol?
  {
    Request(cfg, Rstrip(line))
  }

  /** The same, for a line without trailing whitespace. */
  function Request(cfg: Config, l: string): (r: Option<(Id, Given)>)
    ensures r.Some? ==> r.value.0 < |cfg.items| && cfg.items[r.value.0].Symbol?
  {
    match Assignment(l)
    case Some((name, val)) =>
      var i :- Lookup(cfg, name, 0);
      var v :- RightSide(cfg.items[i].orig, val);
      Some((i, v))
    case None =>
      var name :- Unsetting(l);
      var i :- Lookup(cfg, name, 0);
      if cfg.items[i].orig.Logical() then Some((i, GivenTri(0))) else None
  }

  /** The effect of a line on the user values; `set_value` ignores values that are not valid for the type. */
  function After(cfg: Config, values: map<Id, Given>, line: string): map<Id, Given> {
    match Entry(cfg, line)
    case None => values
    case Some((i, v)) => if ValueOk(cfg, cfg.At(i), v) then values[i := v] else values
  }

  function AfterAll(cfg: Config, values: map<Id, Given>, lines: seq<string>): map<Id, Given>
    decreases |lines|
  {
    if lines == [] then values else AfterAll(cfg, After(cfg, values, lines[0]), lines[1..])
  }

  /** The user values that loading a file leaves behind. */
  function Loaded(cfg: Config, file: string): map<Id, Given> { AfterAll(cfg, map[], SplitLines(file)) }

  // ---- What was written is read back ----

  /** The names of symbols, all different. */
  ghost predicate Named(cfg: Config) {
    && (forall i :: 0 <= i < |cfg.items| && cfg.items[i].Symbol? ==> PlainName(cfg.items[i].name))
    && (forall i, j :: 0 <= i < j < |cfg.items| && cfg.items[i].Symbol? && cfg.items[j].Symbol? ==>
          cfg.items[i].name != cfg.items[j].name)
  }

  lemma {:induction false} LooksUp(cfg: Config, i: Id, k: nat)
    requires Named(cfg) && k <= i < |cfg.items| && cfg.items[i].Symbol?
    ensures Lookup(cfg, cfg.items[i].name, k) == Some(i)
    decreases i - k
  {
    if k < i { LooksUp(cfg, i, k + 1); }
  }

  /** A value that its line does not keep: a line terminator ends the line, and trailing whitespace is dropped. */
  predicate Breaks(t: Type, val: string) {
    (t == STRING && !OneLine(val)) || (t.Numeric() && (!OneLine(val) || !Trimmed(val)))
  }

  /** The texts of bools and tristates. */
  predicate TextOk(t: Type, val: string) {
    t.Logical() ==> val == "n" || val == "y" || (val == "m" && t == TRISTATE)
  }

  lemma LineIsLine(item: Item, val: string)
    requires item.Symbol? && item.orig != UNKNOWN && PlainName(item.name) && TextOk(item.orig, val) && !Breaks(item.orig, val)
    ensures OneLine(ConfigLine(item, val)) && Trimmed(ConfigLine(item, val))
  {
    UnsetsOnLine(item.name);
    InQuotesOnLine(val);
    AssignsOnLine(item.name, if item.orig == STRING then InQuotes(val) else val);
  }

  lemma RightSideBack(t: Type, val: string)
    requires TextOk(t, val) && t != UNKNOWN && !(t.Logical() && val == "n")
    ensures RightSide(t, if t == STRING then InQuotes(val) else val) == Some(Parsed(t, val))
  {
    if t == STRING {
      StringRoundTrip(val, "");
      assert InQuotes(val) + "" == InQuotes(val);
    }
  }

  /** The line of a symbol sets that symbol to its text. */
  lemma EntryBack(cfg: Config, i: Id, val: string)
    requires Named(cfg) && i < |cfg.items| && cfg.items[i].Symbol? && cfg.items[i].orig != UNKNOWN
    requires TextOk(cfg.items[i].orig, val) && !Breaks(cfg.items[i].orig, val)
    ensures Entry(cfg, ConfigLine(cfg.items[i], val)) == Some((i, Parsed(cfg.items[i].orig, val)))
  {
    var item := cfg.items[i];
    LineIsLine(item, val);
    LooksUp(cfg, i, 0);
    if item.orig.Logical() && val == "n" {
      UnsettingBack(item.name);
    } else {
      AssignmentBack(item.name, if item.orig == STRING then InQuotes(val) else val);
      RightSideBack(item.orig, val);
    }
  }

  // ---- Lines that anyone may have written ----

  lemma AssignEntry(cfg: Config, i: Id, right: string)
    requires Named(cfg) && i < |cfg.items| && cfg.items[i].Symbol? && Trimmed(right)
    ensures var v := RightSide(cfg.items[i].orig, right);
            Entry(cfg, Assigns(cfg.items[i].name, right)) == if v.Some? then Some((i, v.value)) else None
  {
    LooksUp(cfg, i, 0);
    AssignsOnLine(cfg.items[i].name, right);
    AssignmentBack(cfg.items[i].name, right);
  }

  lemma UnsetEntry(cfg: Config, i: Id)
    requires Named(cfg) && i < |cfg.items| && cfg.items[i].Symbol?
    ensures Entry(cfg, Unsets(cfg.items[i].name)) == if cfg.items[i].orig.Logical() then Some((i, GivenTri(0))) else None
  {
    LooksUp(cfg, i, 0);
    UnsetsOnLine(cfg.items[i].name);
    UnsettingBack(cfg.items[i].name);
  }

  /** What a line does follows from what it asks for. */
  lemma AfterEntry(cfg: Config, values: map<Id, Given>, line: string, i: Id, v: Option<Given>)
    requires Entry(cfg, line) == if v.Some? then Some((i, v.value)) else None
    ensures After(cfg, values, line) ==
            if v.Some? && ValueOk(cfg, cfg.At(i), v.value) then values[i := v.value] else values
  {
  }

  /** A bool takes y and n, a tristate also m, from the first character; any other line is ignored. */
  lemma LogicalLine(cfg: Config, values: map<Id, Given>, i: Id, right: string)
    requires Named(cfg) && i < |cfg.items| && cfg.items[i].Symbol? && cfg.items[i].orig.Logical() && Trimmed(right)
    ensures var now := After(cfg, values, Assigns(cfg.items[i].name, right));
            if right == "" then now == values
            else match right[0]
                 case 'y' => now == values[i := GivenTri(2)]
                 case 'n' => now == values[i := GivenTri(0)]
                 case 'm' => now == if cfg.items[i].orig == TRISTATE then values[i := GivenTri(1)] else values
                 case _ => now == values
  {
    AssignEntry(cfg, i, right);
    AfterEntry(cfg, values, Assigns(cfg.items[i].name, right), i, RightSide(cfg.items[i].orig, right));
  }

  /** A bool or a tristate that is commented out is n; a comment about any other symbol is ignored. */
  lemma UnsetLine(cfg: Config, values: map<Id, Given>, i: Id)
    requires Named(cfg) && i < |cfg.items| && cfg.items[i].Symbol?
    ensures After(cfg, values, Unsets(cfg.items[i].name)) ==
            if cfg.items[i].orig.Logical() then values[i := GivenTri(0)] else values
  {
    UnsetEntry(cfg, i);
    AfterEntry(cfg, values, Unsets(cfg.items[i].name), i, if cfg.items[i].orig.Logical() then Some(GivenTri(0)) else None);
  }

  /** A string takes a literal and ignores what follows it; a number must be one. */
  lemma TextLine(cfg: Config, values: map<Id, Given>, i: Id, text: string, rest: string)
    requires Named(cfg) && i < |cfg.items| && cfg.items[i].Symbol? && Trimmed(text) && Trimmed(InQuotes(text) + rest)
    requires cfg.items[i].orig == STRING || cfg.items[i].orig.Numeric()
    ensures cfg.items[i].orig == STRING ==>
            After(cfg, values, Assigns(cfg.items[i].name, InQuotes(text) + rest)) == values[i := GivenStr(text)]
    ensures cfg.items[i].orig.Numeric() ==>
            var n := cfg.num(text, if cfg.items[i].orig == HEX then 16 else 10);
            After(cfg, values, Assigns(cfg.items[i].name, text)) ==
            if n.Some? && (cfg.items[i].orig == HEX ==> n.value >= 0) then values[i := GivenStr(text)] else values
  {
    var right := if cfg.items[i].orig == STRING then InQuotes(text) + rest else text;
    StringRoundTrip(text, rest);
    AssignEntry(cfg, i, right);
    AfterEntry(cfg, values, Assigns(cfg.items[i].name, right), i, RightSide(cfg.items[i].orig, right));
  }

  lemma {:induction false} NotFound(cfg: Config, name: string, k: nat)
    requires k <= |cfg.items| && forall i :: k <= i < |cfg.items| && cfg.items[i].Symbol? ==> cfg.items[i].name != name
    ensures Lookup(cfg, name, k) == None
    decreases |cfg.items| - k
  {
    if k < |cfg.items| { NotFound(cfg, name, k + 1); }
  }

  /** A line for a name that no symbol has is ignored. */
  lemma StrangerLine(cfg: Config, values: map<Id, Given>, name: string, right: string)
    requires PlainName(name) && forall i :: 0 <= i < |cfg.items| && cfg.items[i].Symbol? ==> cfg.items[i].name != name
    requires Trimmed(right)
    ensures After(cfg, values, Assigns(name, right)) == values && After(cfg, values, Unsets(name)) == values
  {
    NotFound(cfg, name, 0);
    AssignsOnLine(name, right);
    AssignmentBack(name, right);
    UnsetsOnLine(name);
    UnsettingBack(name);
  }

  lemma {:induction false} BlankDropped(line: string, blank: string)
    requires forall k :: 0 <= k < |blank| ==> Space(blank[k])
    ensures Rstrip(line + blank) == Rstrip(line)
    decreases |blank|
  {
    if blank == [] {
      assert line + blank == line;
    } else {
      var n := |blank| - 1;
      assert (line + blank)[..|line + blank| - 1] == line + blank[..n];
      BlankDropped(line, blank[..n]);
    }
  }

  /** Whitespace at the end of a line does not matter. */
  lemma BlankIgnored(cfg: Config, values: map<Id, Given>, line: string, blank: string)
    requires forall k :: 0 <= k < |blank| ==> Space(blank[k])
    ensures After(cfg, values, line + blank) == After(cfg, values, line)
  {
    BlankDropped(line, blank);
  }

  ghost predicate Accepts(cfg: Config, i: Id, text: Option<string>) {
    text.Some? && ValueOk(cfg, cfg.At(i), Parsed(cfg.At(i).orig, text.value))
  }

  /** The texts can be written line by line. */
  ghost predicate Writable(cfg: Config, texts: seq<Option<string>>) {
    && |texts| == |cfg.items|
    && forall i :: 0 <= i < |texts| ==> WritableText(cfg.items[i], texts[i])
  }

  predicate WritableText(item: Item, text: Option<string>) {
    item.Symbol? && (text.Some? ==> TextOk(item.orig, text.value) && !Breaks(item.orig, text.value))
  }

  /** The values after the chunk of one symbol has been read. */
  ghost function With(cfg: Config, values: map<Id, Given>, i: Id, text: Option<string>): map<Id, Given> {
    if Accepts(cfg, i, text) then values[i := Parsed(cfg.At(i).orig, text.value)] else values
  }

  lemma ChunkBack(cfg: Config, values: map<Id, Given>, i: Id, text: Option<string>, rest: string)
    requires Named(cfg) && i < |cfg.items| && WritableText(cfg.items[i], text)
    ensures AfterAll(cfg, values, SplitLines(Chunk(cfg.items[i], text) + rest))
         == AfterAll(cfg, With(cfg, values, i, text), SplitLines(rest))
  {
    var item := cfg.items[i];
    if text.None? || item.orig == UNKNOWN {
      assert Chunk(item, text) + rest == rest;
    } else {
      var line := ConfigLine(item, text.value);
      LineIsLine(item, text.value);
      EntryBack(cfg, i, text.value);
      FirstLine(line, rest);
      assert ([line] + SplitLines(rest))[1..] == SplitLines(rest);
    }
  }

  /** The values after the chunks of symbols `k` and up. */
  ghost function WithAll(cfg: Config, values: map<Id, Given>, texts: seq<Option<string>>, k: nat): map<Id, Given>
    requires k <= |texts|
    decreases |texts| - k
  {
    if k == |texts| then values else WithAll(cfg, With(cfg, values, k, texts[k]), texts, k + 1)
  }

  lemma {:induction false} WithAllAt(cfg: Config, values: map<Id, Given>, texts: seq<Option<string>>, k: nat, i: Id)
    requires k <= |texts|
    ensures var now := WithAll(cfg, values, texts, k);
            if k <= i < |texts| && Accepts(cfg, i, texts[i]) then
              i in now && now[i] == Parsed(cfg.At(i).orig, texts[i].value)
            else (i in now <==> i in values) && (i in now ==> now[i] == values[i])
    decreases |texts| - k
  {
    if k < |texts| { WithAllAt(cfg, With(cfg, values, k, texts[k]), texts, k + 1, i); }
  }

  lemma {:induction false} FileBack(cfg: Config, texts: seq<Option<string>>, k: nat, values: map<Id, Given>)
    requires Named(cfg) && Writable(cfg, texts) && k <= |texts|
    ensures LoadedOver(cfg, values, FileFrom(cfg, texts, k), WithAll(cfg, values, texts, k))
    decreases |texts| - k
  {
    if k < |texts| {
      var next := With(cfg, values, k, texts[k]);
      FileBack(cfg, texts, k + 1, next);
      assert WritableText(cfg.items[k], texts[k]);
      FileStarts(cfg, texts[k], k, values, FileFrom(cfg, texts, k + 1), WithAll(cfg, next, texts, k + 1));
    }
  }

  /** Loading `file` over `values` leaves `now`. */
  ghost predicate LoadedOver(cfg: Config, values: map<Id, Given>, file: string, now: map<Id, Given>) {
    AfterAll(cfg, values, SplitLines(file)) == now
  }

  lemma FileStarts(cfg: Config, text: Option<string>, k: Id, values: map<Id, Given>, rest: string, now: map<Id, Given>)
    requires Named(cfg) && k < |cfg.items| && WritableText(cfg.items[k], text)
    requires LoadedOver(cfg, With(cfg, values, k, text), rest, now)
    ensures LoadedOver(cfg, values, Chunk(cfg.items[k], text) + rest, now)
  {
    ChunkBack(cfg, values, k, text, rest);
  }

  /** Symbol `i` has a value that its line in the minimal configuration does not keep. */
  ghost predicate Torn(s: Scope, i: Id) {
    TextOf(s, i).Some? && Breaks(s.cfg.At(i).orig, TextOf(s, i).value)
  }

  lemma TextsWritable(s: Scope)
    requires Solved(s) && forall i :: 0 <= i < |s.cfg.items| ==> !Torn(s, i)
    ensures Writable(s.cfg, Texts(s))
  {
    forall i | 0 <= i < |s.cfg.items| ensures WritableText(s.cfg.items[i], Texts(s)[i]) {
      assert !Torn(s, i);
      if s.cfg.items[i].orig.Logical() { LogicalText(s, i); }
    }
  }

  lemma LogicalText(s: Scope, i: Id)
    requires Solved(s) && Real(s.cfg, Tri(i))
    ensures s.AtomStr(Sym(i)).Some? && TextOk(s.cfg.items[i].orig, s.AtomStr(Sym(i)).value)
  {
    SolvedKnows(s, Tri(i));
    assert Rederived(s.cfg, s.user, s.env, Vis(i));
    TextOfTri(s, i);
    var vis, val, rev, weak := KnownIsDecided(s, i);
    TriRuleHolds(s, i, vis, val, rev, weak);
  }

  lemma ReloadsAt(s: Scope, i: Id)
    ensures var a, b := WithAll(s.cfg, map[], Texts(s), 0), Reloaded(s).values;
            (i in a <==> i in b) && (i in a ==> a[i] == b[i])
  {
    WithAllAt(s.cfg, map[], Texts(s), 0, i);
  }

  lemma ReloadsAll(s: Scope)
    ensures User(WithAll(s.cfg, map[], Texts(s), 0), map[]) == Reloaded(s)
  {
    var a, b := WithAll(s.cfg, map[], Texts(s), 0), Reloaded(s).values;
    forall i ensures (i in a <==> i in b) && (i in a ==> a[i] == b[i]) { ReloadsAt(s, i); }
    assert a == b;
  }

  /** Loading the text of the minimal configuration assigns what `Reloaded` says, if no value is torn. */
  lemma ReloadsText(s: Scope)
    requires Solved(s) && Named(s.cfg) && forall i :: 0 <= i < |s.cfg.items| ==> !Torn(s, i)
    ensures User(Loaded(s.cfg, MinConfig(s)), map[]) == Reloaded(s)
  {
    TextsWritable(s);
    FileBack(s.cfg, Texts(s), 0, map[]);
    ReloadsAll(s);
  }

  // ---- Nothing that a line does not keep is read back ----

  ghost predicate Whole(cfg: Config, values: map<Id, Given>) {
    forall i :: i in values && values[i].GivenStr? ==> !Breaks(cfg.At(i).orig, values[i].s)
  }

  lemma EntryWhole(cfg: Config, line: string)
    requires OneLine(line) && Entry(cfg, line).Some?
    ensures var (i, v) := Entry(cfg, line).value; v.GivenStr? ==> !Breaks(cfg.At(i).orig, v.s)
  {
    var l := Rstrip(line);
    assert OneLine(l);
    if Assignment(l).Some? {
      RightSideClean(l);
      var val := Assignment(l).value.1;
      if Literal(val).Some? { LiteralOneLine(val); }
    }
  }

  lemma {:induction false} AfterAllWhole(cfg: Config, values: map<Id, Given>, lines: seq<string>)
    requires Whole(cfg, values) && forall line :: line in lines ==> OneLine(line)
    ensures Whole(cfg, AfterAll(cfg, values, lines))
    decreases |lines|
  {
    if lines != [] {
      if Entry(cfg, lines[0]).Some? { EntryWhole(cfg, lines[0]); }
      AfterAllWhole(cfg, After(cfg, values, lines[0]), lines[1..]);
    }
  }

  /** Numbers are printed without whitespace. */
  ghost predicate PlainNumbers(cfg: Config) {
    forall n, hex :: OneLine(cfg.show(n, hex)) && Trimmed(cfg.show(n, hex))
  }

  /** Without the user's own text, a symbol has its default or the end of its range. */
  lemma NotFromFile(s: Scope, t: Scope, i: Id, vis: Tristate)
    requires s.cfg == t.cfg && i < |s.cfg.items| && s.cfg.items[i].Symbol? && PlainNumbers(s.cfg)
    requires s.cfg.items[i].orig == STRING || s.cfg.items[i].orig.Numeric()
    requires t.TextStr(i, vis).Some? && t.DefaultStr(s.cfg.items[i]).Some?
    requires t.user.Str(i).Some? ==> !Breaks(s.cfg.items[i].orig, t.user.Str(i).value)
    ensures Breaks(s.cfg.items[i].orig, t.TextStr(i, vis).value) ==> t.TextStr(i, vis) == t.DefaultStr(s.cfg.items[i])
  {
    var item := s.cfg.items[i];
    if item.orig.Numeric() && t.ActiveRange(item).Some? && t.ActiveRange(item).value.Some? {
      var (low, high) := t.ActiveRange(item).value.value;
      assert OneLine(s.cfg.show(low, item.orig == HEX)) && OneLine(s.cfg.show(high, item.orig == HEX));
    }
  }

  lemma SolvedText(s: Scope, i: Id)
    requires Solved(s) && Real(s.cfg, Str(i)) && !s.cfg.items[i].orig.Logical()
    ensures s.GetTri(Vis(i)).Some? && s.TextStr(i, s.GetTri(Vis(i)).value).Some?
    ensures s.AtomStr(Sym(i)) == s.TextStr(i, s.GetTri(Vis(i)).value)
  {
    assert Rederived(s.cfg, s.user, s.env, Str(i));
  }

  /** What is written is not the default. */
  lemma TornText(s: Scope, i: Id)
    requires i < |s.cfg.items| && Torn(s, i)
    ensures var item := s.cfg.items[i];
            && item.Symbol? && (item.orig == STRING || item.orig.Numeric()) && s.AtomStr(Sym(i)).Some?
            && Breaks(item.orig, s.AtomStr(Sym(i)).value) && s.AtomStr(Sym(i)) != s.DefaultStr(item)
  {
  }

  /** A value that is the same for what was read from a file is not torn. */
  lemma SolvedNotTorn(s: Scope, t: Scope, i: Id)
    requires Solved(s) && Solved(t) && t == Scope(s.cfg, t.user, s.env) && PlainNumbers(s.cfg)
    requires Whole(s.cfg, t.user.values) && i < |s.cfg.items|
    ensures !Torn(s, i)
  {
    if Torn(s, i) {
      TornText(s, i);
      SolvedText(t, i);
      TextDefaultsAgree(s, t, i);
      NotFromFile(s, t, i, t.GetTri(Vis(i)).value);
    }
  }

  /** So a torn value does not survive, whatever else the file assigns. */
  lemma TornIsLost(cfg: Config, u: User, v: User, rank: Ranking, i: Id)
    requires WellFormed(cfg) && UserOk(cfg, u) && UserOk(cfg, v) && Ranked(cfg, rank)
    requires ChoiceFree(cfg) && Propagated(cfg) && ReadsBack(cfg) && PlainNumbers(cfg)
    requires Whole(cfg, v.values) && i < |cfg.items| && Torn(Scope(cfg, u, Full(cfg, u, rank)), i)
    ensures !SameValues(cfg, u, v, rank)
  {
    if SameValues(cfg, u, v, rank) {
      SameFull(cfg, u, v, rank);
      FullSolved(cfg, u, rank);
      FullSolved(cfg, v, rank);
      SolvedNotTorn(Scope(cfg, u, Full(cfg, u, rank)), Scope(cfg, v, Full(cfg, v, rank)), i);
    }
  }

  lemma LoadedOk(cfg: Config, values: map<Id, Given>, lines: seq<string>)
    requires UserOk(cfg, User(values, map[]))
    ensures UserOk(cfg, User(AfterAll(cfg, values, lines), map[]))
    decreases |lines|
  {
    if lines != [] { LoadedOk(cfg, After(cfg, values, lines[0]), lines[1..]); }
  }

  /** Saving a minimal configuration and loading it back keeps every value if and only if no symbol is lost and no
      value is torn. */
  lemma FileReloads(cfg: Config, u: User, rank: Ranking)
    requires WellFormed(cfg) && UserOk(cfg, u) && Ranked(cfg, rank)
    requires ChoiceFree(cfg) && Propagated(cfg) && ReadsBack(cfg) && PlainNumbers(cfg) && Named(cfg)
    ensures var s := Scope(cfg, u, Full(cfg, u, rank));
            var v := User(Loaded(cfg, MinConfig(s)), map[]);
            SameValues(cfg, u, v, rank) <==> forall i :: 0 <= i < |cfg.items| ==> !Lost(s, i) && !Torn(s, i)
  {
    var s := Scope(cfg, u, Full(cfg, u, rank));
    var file := MinConfig(s);
    if i :| 0 <= i < |cfg.items| && Torn(s, i) {
      LinesAreOneLine(file);
      AfterAllWhole(cfg, map[], SplitLines(file));
      LoadedOk(cfg, map[], SplitLines(file));
      TornIsLost(cfg, u, User(Loaded(cfg, file), map[]), rank, i);
    } else {
      FullSolved(cfg, u, rank);
      ReloadsText(s);
      MinConfigReload(cfg, u, rank);
    }
  }

  // ---- Reading what is written ----

  /** `_str_default` on the live evaluator. */
  method TriDefaultValue(k: Kconfig, i: Id) returns (most: Tristate)
    requires k.Valid() && Real(k.cfg, Tri(i))
    modifies k`cache
    ensures k.Valid() && Extends(old(k.cache), k.cache) && TriDefault(k.Now(), i) == Some(most)
  {
    var item := k.cfg.At(i);
    assert WellFormedItem(k.cfg, i);
    SymReadsUnder(k.cfg, k.rank, i);
    ghost var r := k.rank(Tri(i));
    ghost var first;
    most, first := k.DefaultValue(i, r);
    ghost var s0 := k.Now();
    var rev := k.ExprValue(item.rev, r);
    ghost var s1 := k.Now();
    var weak := k.ExprValue(item.weak, r);
    ghost var s2 := k.Now();
    var val := most;
    most := Max(Max(rev, weak), val);
    if most == 1 {
      var t := k.TypeValue(i, r);
      if t == BOOL { most := 2; }
    }
    Kconfig.DefaultTransfers(s0, k.Now(), item, first);
    ExprTransfers(s1, k.Now(), item.rev);
    ExprTransfers(s2, k.Now(), item.weak);
  }

  method StrDefaultValue(k: Kconfig, i: Id) returns (d: string)
    requires k.Valid() && i < |k.cfg.items| && k.cfg.items[i].Symbol?
    modifies k`cache
    ensures k.Valid() && Extends(old(k.cache), k.cache) && StrDefault(k.Now(), i) == Some(d)
  {
    var item := k.cfg.At(i);
    if item.orig.Logical() {
      var t := TriDefaultValue(k, i);
      d := TriToStr(t);
    } else if item.orig == UNKNOWN {
      d := "";
    } else {
      TextReadsUnder(k.cfg, k.rank, i);
      d := k.DefaultStrValue(i, k.rank(Str(i)));
    }
  }

  method SymText(k: Kconfig, i: Id) returns (v: string)
    requires k.Valid() && i < |k.cfg.items| && k.cfg.items[i].Symbol?
    modifies k`cache
    ensures k.Valid() && Extends(old(k.cache), k.cache) && k.Now().AtomStr(Sym(i)) == Some(v)
  {
    if k.cfg.At(i).orig == UNKNOWN {
      v := k.cfg.At(i).name;
    } else {
      v := k.StrValue(i);
    }
  }

  lemma StrDefaultTransfers(a: Scope, b: Scope, i: Id)
    requires a.cfg == b.cfg && a.user == b.user && Extends(a.env, b.env) && StrDefault(a, i).Some?
    ensures StrDefault(b, i) == StrDefault(a, i)
  {
    var item := a.cfg.At(i);
    if item.orig.Logical() {
      var first := a.FirstActive(item.defaults, 0).value;
      Kconfig.DefaultTransfers(a, b, item, first);
      ExprTransfers(a, b, item.rev);
      ExprTransfers(a, b, item.weak);
      if a.TypeNow(i).Some? { TypeTransfers(a, b, i); }
    } else if item.orig != UNKNOWN {
      DefaultStrTransfers(a, b, i);
    }
  }

  lemma WrittenTransfers(a: Scope, b: Scope, i: Id)
    requires a.cfg == b.cfg && a.user == b.user && Extends(a.env, b.env) && Written(a, i).Some?
    ensures Written(b, i) == Written(a, i)
    ensures a.AtomStr(Sym(i)).Some? ==> b.AtomStr(Sym(i)) == a.AtomStr(Sym(i))
  {
    ExprTransfers(a, b, a.cfg.At(i).rev);
    if StrDefault(a, i).Some? { StrDefaultTransfers(a, b, i); }
  }

  /** Whether symbol `i` gets a line, and which. */
  method LineFor(k: Kconfig, i: Id) returns (write: bool, text: string)
    requires k.Valid() && i < |k.cfg.items| && k.cfg.items[i].Symbol?
    modifies k`cache
    ensures k.Valid() && Extends(old(k.cache), k.cache)
    ensures Written(k.Now(), i) == Some(write) && (write ==> k.Now().AtomStr(Sym(i)) == Some(text))
  {
    assert WellFormedItem(k.cfg, i);
    SymReadsUnder(k.cfg, k.rank, i);
    var vis := k.Visibility(i);
    var rev := k.ExprValue(k.cfg.At(i).rev, k.rank(Tri(i)));
    ghost var s0 := k.Now();
    write, text := false, "";
    if vis > rev {
      text := SymText(k, i);
      ghost var s1 := k.Now();
      var def := StrDefaultValue(k, i);
      ExprTransfers(s0, k.Now(), k.cfg.At(i).rev);
      AtomStrTransfers(s1, k.Now(), Sym(i));
      write := text != def;
    }
  }

  /** The cache of a valid evaluator agrees with the values from scratch. */
  lemma CacheWithinFull(k: Kconfig)
    requires k.Valid() && ChoiceFree(k.cfg)
    ensures Extends(k.cache, Full(k.cfg, k.user, k.rank))
  {
    NoChoices(k.cfg);
    forall f | f in k.cache ensures f in Full(k.cfg, k.user, k.rank) && Full(k.cfg, k.user, k.rank)[f] == k.cache[f] {
      assert Marked(k.cfg, k.cache, f) && Rederived(k.cfg, k.user, k.cache, f);
      JustifiedIsScratch(k.cfg, k.user, k.rank, k.cache, f);
      FullHolds(k.cfg, k.user, k.rank, f);
    }
  }

  /** The scope of the values from scratch. */
  ghost function FromScratch(k: Kconfig): Scope
    requires Ranked(k.cfg, k.rank)
    reads k
  {
    Scope(k.cfg, k.user, Full(k.cfg, k.user, k.rank))
  }

  /** The same line that the values from scratch call for. */
  method ChunkFromScratch(k: Kconfig, i: Id) returns (chunk: string)
    requires k.Valid() && ChoiceFree(k.cfg) && i < |k.cfg.items|
    modifies k`cache
    ensures k.Valid() && chunk == Chunk(k.cfg.items[i], TextOf(FromScratch(k), i))
  {
    var write, text := LineFor(k, i);
    CacheWithinFull(k);
    WrittenTransfers(k.Now(), FromScratch(k), i);
    chunk := if write then ConfigString(k.cfg.items[i], text) else "";
  }

  /** `_min_config_contents`, without a header. */
  method MinConfigContents(k: Kconfig) returns (file: string)
    requires k.Valid() && ChoiceFree(k.cfg)
    modifies k`cache
    ensures k.Valid() && file == MinConfig(FromScratch(k))
  {
    file := "";
    ghost var s := FromScratch(k);
    ghost var texts, whole := Texts(s), MinConfig(s);
    for i := 0 to |k.cfg.items|
      invariant k.Valid() && FromScratch(k) == s && Starts(s.cfg, texts, file, i, whole)
    {
      var chunk := ChunkFromScratch(k, i);
      FileStep(s.cfg, texts, file, i, whole);
      file := file + chunk;
    }
  }

  /** The first `i` chunks of a file are `part`. */
  ghost predicate Starts(cfg: Config, texts: seq<Option<string>>, part: string, i: nat, file: string) {
    i <= |texts| && part + FileFrom(cfg, texts, i) == file
  }

  lemma FileStep(cfg: Config, texts: seq<Option<string>>, part: string, i: nat, file: string)
    requires i < |texts| && Starts(cfg, texts, part, i, file)
    ensures Starts(cfg, texts, part + Chunk(cfg.At(i), texts[i]), i + 1, file)
  {
    Joined(part, Chunk(cfg.At(i), texts[i]), FileFrom(cfg, texts, i + 1));
  }

  lemma Joined(a: string, b: string, c: string)
    ensures a + b + c == a + (b + c)
  {
  }

  // ---- Loading ----

  lemma NothingPicked(k: Kconfig)
    requires k.Valid() && ChoiceFree(k.cfg)
    ensures k.user.picked == map[]
  {
    NoChoices(k.cfg);
    assert forall c :: c in k.user.picked ==> k.cfg.At(c).Choice?;
  }

  /** The symbol that a line sets, if any. */
  function Sets(cfg: Config, line: string): set<Id> {
    match Entry(cfg, line)
    case None => {}
    case Some((i, v)) => if ValueOk(cfg, cfg.At(i), v) then {i} else {}
  }

  lemma AfterLine(cfg: Config, before: map<Id, Given>, now: map<Id, Given>, line: string)
    ensures After(cfg, now, line).Keys == now.Keys + Sets(cfg, line)
    ensures After(cfg, before + now, line) == before + After(cfg, now, line)
  {
  }

  method AssignLine(k: Kconfig, line: string) returns (ids: set<Id>)
    requires k.Valid() && ChoiceFree(k.cfg)
    modifies k
    ensures k.Valid() && k.user.values == After(k.cfg, old(k.user.values), line) && ids == Sets(k.cfg, line)
  {
    var entry := Entry(k.cfg, line);
    ids := {};
    if entry.Some? {
      var ok := k.SetSymValue(entry.value.0, entry.value.1);
      if ok { ids := {entry.value.0}; }
    }
  }

  /** Assigns the values line by line and tells which symbols were set. */
  method AssignLines(k: Kconfig, lines: seq<string>) returns (wasSet: set<Id>)
    requires k.Valid() && ChoiceFree(k.cfg)
    modifies k
    ensures k.Valid() && wasSet == AfterAll(k.cfg, map[], lines).Keys
    ensures k.user.values == old(k.user.values) + AfterAll(k.cfg, map[], lines)
  {
    wasSet := {};
    ghost var was, now: map<Id, Given> := k.user.values, map[];
    for n := 0 to |lines|
      invariant k.Valid() && wasSet == now.Keys && k.user.values == was + now
      invariant AfterAll(k.cfg, now, lines[n..]) == AfterAll(k.cfg, map[], lines)
    {
      assert lines[n..][1..] == lines[n + 1..];
      AfterLine(k.cfg, was, now, lines[n]);
      var ids := AssignLine(k, lines[n]);
      wasSet := wasSet + ids;
      now := After(k.cfg, now, lines[n]);
    }
  }

  /** What is left after the first `n` symbols have been gone through. */
  function Kept(values: map<Id, Given>, wasSet: set<Id>, n: nat): map<Id, Given> {
    map j | j in values && (j in wasSet || n <= j) :: values[j]
  }

  lemma KeptNext(values: map<Id, Given>, wasSet: set<Id>, n: nat)
    ensures Kept(values, wasSet, n + 1) == if n in wasSet then Kept(values, wasSet, n) else Kept(values, wasSet, n) - {n}
  {
  }

  lemma KeptAll(cfg: Config, u: User, wasSet: set<Id>)
    requires UserOk(cfg, u)
    ensures Kept(u.values, wasSet, |cfg.items|) == map j | j in u.values && j in wasSet :: u.values[j]
  {
    forall j | j in u.values ensures j < |cfg.items| {
      assert ValueOk(cfg, cfg.At(j), u.values[j]);
    }
  }

  /** Unsets every symbol that was not set. */
  method UnsetOthers(k: Kconfig, wasSet: set<Id>)
    requires k.Valid() && ChoiceFree(k.cfg)
    modifies k
    ensures k.Valid()
    ensures k.user.values == map j | j in old(k.user.values) && j in wasSet :: old(k.user.values)[j]
  {
    ghost var u := k.user;
    KeptAll(k.cfg, u, wasSet);
    for i := 0 to |k.cfg.items|
      invariant k.Valid() && k.user.values == Kept(u.values, wasSet, i)
    {
      KeptNext(u.values, wasSet, i);
      if i !in wasSet { k.UnsetSymValue(i); }
    }
  }

  /** `_load_config` with `replace`: assigns the values, then unsets every symbol that was not assigned. */
  method LoadConfig(k: Kconfig, file: string)
    requires k.Valid() && ChoiceFree(k.cfg)
    modifies k
    ensures k.Valid() && k.user == User(Loaded(k.cfg, file), map[])
  {
    var wasSet := AssignLines(k, SplitLines(file));
    UnsetOthers(k, wasSet);
    NothingPicked(k);
    assert k.user.values == Loaded(k.cfg, file);
  }

  /** Saving a minimal configuration and loading it back keeps every value, if and only if no symbol is lost and no
      value is torn. */
  method SaveThenLoad(k: Kconfig) returns (ghost kept: bool)
    requires k.Valid() && ChoiceFree(k.cfg) && Propagated(k.cfg)
    requires ReadsBack(k.cfg) && PlainNumbers(k.cfg) && Named(k.cfg)
    modifies k
    ensures k.Valid() && kept == SameValues(k.cfg, old(k.user), k.user, k.rank)
    ensures kept <==> forall i :: 0 <= i < |k.cfg.items| ==>
                        !Lost(old(FromScratch(k)), i) && !Torn(old(FromScratch(k)), i)
  {
    ghost var u, s := k.user, FromScratch(k);
    var file := MinConfigContents(k);
    LoadConfig(k, file);
    FileReloads(k.cfg, u, k.rank);
    kept := SameValues(k.cfg, u, k.user, k.rank);
  }
}
