/** Incremental builds: `sync_deps` signals the symbols whose written values have changed. */
module KconfigSync {
  import opened Basics
  import opened KconfigModel
  import opened KconfigStrings
  import opened KconfigText

  datatype Sort = Logical | Text | Number(hex: bool)

  /** A symbol with its current value; `written` is `_write_to_conf`. */
  datatype Symbol = Symbol(name: string, sort: Sort, value: string, written: bool)

  /** The value that the symbol leaves in auto.conf, if any: n values are left out. */
  function Written(s: Symbol): Option<string> {
    if s.written && !(s.sort.Logical? && s.value == "n") then Some(s.value) else None
  }

  function RightSide(s: Symbol): string { if s.sort.Text? then InQuotes(s.value) else s.value }

  function Line(s: Symbol): string { Assigns(s.name, RightSide(s)) }

  /** `_old_vals_contents`: the text of auto.conf. */
  function AutoConf(syms: seq<Symbol>): string {
    if syms == [] then "" else (if Written(syms[0]).Some? then Line(syms[0]) + "\n" else "") + AutoConf(syms[1..])
  }

  /** The line that the symbol has in autoconf.h, if any. */
  function HeaderLine(s: Symbol): Option<string> {
    if !s.written then None
    else
      match s.sort
      case Logical =>
        if s.value == "y" then Some("#define CONFIG_" + s.name + " 1")
        else if s.value == "m" then Some("#define CONFIG_" + s.name + "_MODULE 1")
        else None
      case Text => Some("#define CONFIG_" + s.name + " " + InQuotes(s.value))
      case Number(hex) =>
        Some("#define CONFIG_" + s.name + " " +
             (if hex && !("0x" <= s.value) && !("0X" <= s.value) then "0x" + s.value else s.value))
  }

  // ---- Reading auto.conf ----

  function Find(syms: seq<Symbol>, name: string): Option<Symbol> {
    if syms == [] then None else if syms[0].name == name then Some(syms[0]) else Find(syms[1..], name)
  }

  /** The value that a line records for a symbol. */
  function Recorded(sort: Sort, right: string): Option<string> {
    if sort.Text? then
      match Literal(right) case None => None case Some(body) => Some(Unescape(body))
    else Some(right)
  }

  type OldVals = map<string, string>

  /** The effect of one line on the old values. */
  function LoadLine(syms: seq<Symbol>, was: OldVals, line: string): OldVals {
    match Assignment(line)
    case None => was
    case Some((name, right)) =>
      match Find(syms, name)
      case None => was
      case Some(s) => (match Recorded(s.sort, right) case None => was case Some(v) => was[name := v])
  }

  function LoadLines(syms: seq<Symbol>, was: OldVals, lines: seq<string>): OldVals
    decreases |lines|
  {
    if lines == [] then was else LoadLines(syms, LoadLine(syms, was, lines[0]), lines[1..])
  }

  /** The old values that a file records. Unlike other configuration files, its lines are not stripped. */
  function Load(syms: seq<Symbol>, file: string): OldVals { LoadLines(syms, map[], SplitLines(file)) }

  /** The lines that name no symbol of now. */
  function Gone(syms: seq<Symbol>, lines: seq<string>): set<string> {
    set line | line in lines && Assignment(line).Some? && Find(syms, Assignment(line).value.0).None?
             :: Assignment(line).value.0
  }

  lemma {:induction false} NoneNamed(syms: seq<Symbol>, name: string)
    ensures Find(syms, name).None? <==> forall k :: 0 <= k < |syms| ==> syms[k].name != name
  {
    if syms != [] {
      NoneNamed(syms[1..], name);
      if Find(syms[1..], name).Some? {
        var k :| 0 <= k < |syms[1..]| && syms[1..][k].name == name;
        assert syms[k + 1].name == name;
      } else if syms[0].name != name {
        forall k | 0 <= k < |syms| ensures syms[k].name != name {
          if k > 0 { assert syms[k] == syms[1..][k - 1]; }
        }
      }
    }
  }

  /** The vanished names are those that some line assigns to and no symbol has. */
  lemma GoneExact(syms: seq<Symbol>, lines: seq<string>, name: string)
    ensures name in Gone(syms, lines) <==>
            && name != "" && (forall k :: 0 <= k < |name| ==> name[k] != '=')
            && (forall k :: 0 <= k < |syms| ==> syms[k].name != name)
            && exists right :: Assigns(name, right) in lines
  {
    NoneNamed(syms, name);
    if name in Gone(syms, lines) {
      var line :| line in lines && Assignment(line).Some? && Assignment(line).value.0 == name;
      AssignmentExact(line, name, Assignment(line).value.1);
      assert Assigns(name, Assignment(line).value.1) in lines;
    }
    if right :| Assigns(name, right) in lines {
      AssignmentExact(Assigns(name, right), name, right);
    }
  }

  /** The decision of `sync_deps` about a symbol. */
  predicate Flagged(s: Symbol, was: Option<string>) {
    if s.written then !(was.None? && s.sort.Logical? && s.value == "n") && Some(s.value) != was
    else was.Some?
  }

  function Old(was: OldVals, name: string): Option<string> { if name in was then Some(was[name]) else None }

  // ---- What was written is read back ----

  /** The names are those of symbols, and no two are the same. */
  ghost predicate Named(syms: seq<Symbol>) {
    && (forall i :: 0 <= i < |syms| ==> PlainName(syms[i].name))
    && (forall i, j :: 0 <= i < j < |syms| ==> syms[i].name != syms[j].name)
  }

  /** The same symbols, with other values. */
  ghost predicate SameSymbols(a: seq<Symbol>, b: seq<Symbol>) {
    |a| == |b| && forall i :: 0 <= i < |a| ==> a[i].name == b[i].name && a[i].sort == b[i].sort
  }

  /** The value stays on its line. */
  predicate Kept(s: Symbol) { Written(s).Some? ==> OneLine(s.value) }

  ghost predicate AllKept(syms: seq<Symbol>) { forall i :: 0 <= i < |syms| ==> Kept(syms[i]) }

  lemma RecordedBack(s: Symbol)
    ensures Recorded(s.sort, RightSide(s)) == Some(s.value)
  {
    if s.sort.Text? {
      StringRoundTrip(s.value, "");
      assert InQuotes(s.value) + "" == InQuotes(s.value);
    }
  }

  lemma {:induction false} FindsAt(syms: seq<Symbol>, i: nat)
    requires i < |syms| && Named(syms)
    ensures Find(syms, syms[i].name) == Some(syms[i])
  {
    if i > 0 {
      assert syms[1..][i - 1] == syms[i];
      FindsAt(syms[1..], i - 1);
    }
  }

  /** The line of a symbol sets its own old value. */
  lemma LineBack(now: seq<Symbol>, was: OldVals, i: nat, s: Symbol)
    requires Named(now) && i < |now| && now[i].name == s.name && now[i].sort == s.sort
    ensures LoadLine(now, was, Line(s)) == was[s.name := s.value]
  {
    assert PlainName(s.name);
    AssignmentBack(s.name, RightSide(s));
    RecordedBack(s);
    FindsAt(now, i);
  }

  lemma LineOnLine(s: Symbol)
    requires PlainName(s.name) && OneLine(s.value)
    ensures OneLine(Line(s))
  {
    AssignsOnLine(s.name, RightSide(s));
    InQuotesOnLine(s.value);
  }

  /** The old values with those of a configuration on top. */
  function OldOf(was: OldVals, syms: seq<Symbol>): OldVals
    decreases |syms|
  {
    if syms == [] then was
    else OldOf(if Written(syms[0]).Some? then was[syms[0].name := syms[0].value] else was, syms[1..])
  }

  lemma ChunkBack(now: seq<Symbol>, was: OldVals, i: nat, s: Symbol, rest: string)
    requires Named(now) && i < |now| && now[i].name == s.name && now[i].sort == s.sort && OneLine(s.value)
    ensures LoadLines(now, was, SplitLines(Line(s) + "\n" + rest))
         == LoadLines(now, was[s.name := s.value], SplitLines(rest))
  {
    assert PlainName(s.name);
    LineOnLine(s);
    FirstLine(Line(s), rest);
    LineBack(now, was, i, s);
    assert ([Line(s)] + SplitLines(rest))[1..] == SplitLines(rest);
  }

  lemma {:induction false} LoadBack(now: seq<Symbol>, prev: seq<Symbol>, n: nat, was: OldVals)
    requires Named(now) && SameSymbols(prev, now) && AllKept(prev) && n <= |prev|
    ensures LoadLines(now, was, SplitLines(AutoConf(prev[n..]))) == OldOf(was, prev[n..])
    decreases |prev| - n
  {
    if n < |prev| {
      var s, rest := prev[n], prev[n + 1..];
      assert prev[n..][0] == s && prev[n..][1..] == rest && Kept(s);
      LoadBack(now, prev, n + 1, if Written(s).Some? then was[s.name := s.value] else was);
      if Written(s).Some? {
        ChunkBack(now, was, n, s, AutoConf(rest));
      } else {
        assert "" + AutoConf(rest) == AutoConf(rest);
      }
    }
  }

  lemma {:induction false} OldOfAt(syms: seq<Symbol>, i: nat, n: nat, was: OldVals)
    requires Named(syms) && i < |syms| && n <= |syms|
    ensures Old(OldOf(was, syms[n..]), syms[i].name) ==
            if i >= n && Written(syms[i]).Some? then Written(syms[i]) else Old(was, syms[i].name)
    decreases |syms| - n
  {
    if n < |syms| {
      assert syms[n..][0] == syms[n] && syms[n..][1..] == syms[n + 1..];
      OldOfAt(syms, i, n + 1, if Written(syms[n]).Some? then was[syms[n].name := syms[n].value] else was);
    }
  }

  lemma SameNames(prev: seq<Symbol>, now: seq<Symbol>)
    requires Named(now) && SameSymbols(prev, now)
    ensures Named(prev)
  {
    forall i | 0 <= i < |prev| ensures PlainName(prev[i].name) { assert PlainName(now[i].name); }
    forall i, j | 0 <= i < j < |prev| ensures prev[i].name != prev[j].name {
      assert now[i].name != now[j].name;
    }
  }

  /** What auto.conf records for a symbol is what the symbol was written as. */
  lemma LoadsWritten(prev: seq<Symbol>, now: seq<Symbol>, i: nat)
    requires Named(now) && SameSymbols(prev, now) && AllKept(prev) && i < |now|
    ensures Old(Load(now, AutoConf(prev)), now[i].name) == Written(prev[i])
  {
    assert prev[0..] == prev && prev[i].name == now[i].name;
    SameNames(prev, now);
    LoadBack(now, prev, 0, map[]);
    OldOfAt(prev, i, 0, map[]);
  }

  /** A symbol is flagged exactly if its written value differs from the old one. */
  lemma FlaggedIff(s: Symbol, was: Option<string>)
    requires s.sort.Logical? ==> was != Some("n")
    ensures Flagged(s, was) <==> Written(s) != was
  {
  }

  /** The decision about symbol `i` is right. */
  ghost predicate Right(prev: seq<Symbol>, now: seq<Symbol>, i: nat)
    requires i < |prev| && i < |now|
  {
    Flagged(now[i], Old(Load(now, AutoConf(prev)), now[i].name)) <==> Written(prev[i]) != Written(now[i])
  }

  /**
   * If auto.conf was written from the previous configuration, and its values stay on their lines, exactly the symbols
   * whose written value has changed are flagged, and so is every symbol whose line in autoconf.h appears, disappears
   * or changes.
   */
  lemma SyncFlags(prev: seq<Symbol>, now: seq<Symbol>, i: nat)
    requires Named(now) && SameSymbols(prev, now) && AllKept(prev) && i < |now|
    ensures Right(prev, now, i)
    ensures HeaderLine(prev[i]) != HeaderLine(now[i]) ==> Flagged(now[i], Old(Load(now, AutoConf(prev)), now[i].name))
  {
    LoadsWritten(prev, now, i);
    FlaggedIff(now[i], Written(prev[i]));
  }

  // ---- Nothing that a line does not keep is read back ----

  ghost predicate Whole(was: OldVals) { forall name :: name in was ==> OneLine(was[name]) }

  lemma LineWhole(syms: seq<Symbol>, was: OldVals, line: string)
    requires Whole(was) && OneLine(line)
    ensures Whole(LoadLine(syms, was, line))
  {
    if Assignment(line).Some? {
      var right := Assignment(line).value.1;
      assert forall k :: 0 <= k < |right| ==> right[k] == line[|line| - |right| + k];
      if Literal(right).Some? { LiteralOneLine(right); }
    }
  }

  lemma {:induction false} LinesWhole(syms: seq<Symbol>, was: OldVals, lines: seq<string>)
    requires Whole(was) && forall line :: line in lines ==> OneLine(line)
    ensures Whole(LoadLines(syms, was, lines))
    decreases |lines|
  {
    if lines != [] {
      LineWhole(syms, was, lines[0]);
      LinesWhole(syms, LoadLine(syms, was, lines[0]), lines[1..]);
    }
  }

  /** A written value with a line terminator in it is flagged though nothing has changed. */
  lemma TornIsFlagged(syms: seq<Symbol>, file: string, i: nat)
    requires i < |syms| && !Kept(syms[i])
    ensures Flagged(syms[i], Old(Load(syms, file), syms[i].name))
  {
    LinesAreOneLine(file);
    LinesWhole(syms, map[], SplitLines(file));
  }

  /** The decisions are right whatever the new values are, if and only if the old values stay on their lines. */
  lemma SyncExact(prev: seq<Symbol>)
    requires Named(prev)
    ensures (forall now, i :: SameSymbols(prev, now) && 0 <= i < |now| ==> Right(prev, now, i)) <==> AllKept(prev)
  {
    if AllKept(prev) {
      forall now, i | SameSymbols(prev, now) && 0 <= i < |now| ensures Right(prev, now, i) {
        SameNames(now, prev);
        SyncFlags(prev, now, i);
      }
    } else {
      var i :| 0 <= i < |prev| && !Kept(prev[i]);
      TornIsFlagged(prev, AutoConf(prev), i);
      assert SameSymbols(prev, prev) && !Right(prev, prev, i);
    }
  }

  // ---- As it runs ----

  /** `_load_old_vals`: the old values, and the symbols that are gone. */
  method LoadOldVals(syms: seq<Symbol>, file: string) returns (was: OldVals, gone: set<string>)
    ensures was == Load(syms, file) && gone == Gone(syms, SplitLines(file))
  {
    var lines := SplitLines(file);
    was, gone := map[], {};
    var i := 0;
    while i < |lines|
      invariant 0 <= i <= |lines|
      invariant LoadLines(syms, was, lines[i..]) == Load(syms, file) && gone == Gone(syms, lines[..i])
    {
      assert lines[..i + 1] == lines[..i] + [lines[i]] && lines[i..][1..] == lines[i + 1..];
      was := LoadLine(syms, was, lines[i]);
      var a := Assignment(lines[i]);
      if a.Some? && Find(syms, a.value.0).None? { gone := gone + {a.value.0}; }
      i := i + 1;
    }
    assert lines[..|lines|] == lines;
  }

  /** `sync_deps`: the names of the symbols that are touched, and the new auto.conf. */
  method SyncDeps(syms: seq<Symbol>, file: string) returns (touched: set<string>, autoConf: string)
    ensures autoConf == AutoConf(syms)
    ensures var was := Load(syms, file);
            touched == Gone(syms, SplitLines(file)) + set s | s in syms && Flagged(s, Old(was, s.name)) :: s.name
  {
    var was;
    was, touched := LoadOldVals(syms, file);
    ghost var gone := touched;
    var i := 0;
    while i < |syms|
      invariant 0 <= i <= |syms|
      invariant touched == gone + set s | s in syms[..i] && Flagged(s, Old(was, s.name)) :: s.name
    {
      assert syms[..i + 1] == syms[..i] + [syms[i]];
      var s := syms[i];
      if Flagged(s, Old(was, s.name)) { touched := touched + {s.name}; }
      i := i + 1;
    }
    assert syms[..|syms|] == syms;
    autoConf := AutoConf(syms);
  }
}
