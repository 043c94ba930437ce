/** The IPC requests: what a listing offers, what a start or trigger resolves to, and the status replied. */
module Ipc {
  import opened CString
  import opened Watches
  import opened ProcessTable

  // ---- scanning ----

  predicate IsSpace(c: char) {
    c in [' ', '\t', '\n', '\U{0B}', '\U{0C}', '\r']
  }

  predicate IsDigit(c: char) {
    '0' <= c <= '9'
  }

  function SkipSpaces(s: string): (r: string)
    ensures |r| <= |s| && (r != "" ==> !IsSpace(r[0]))
    ensures s != "" && !IsSpace(s[0]) ==> r == s
  {
    if s != "" && IsSpace(s[0]) then SkipSpaces(s[1..]) else s
  }

  /** The value of the digits s starts with, behind those that gave v. */
  function DigitsValue(s: string, v: nat): nat {
    if s != "" && IsDigit(s[0]) then DigitsValue(s[1..], 10 * v + (s[0] - '0') as int) else v
  }

  datatype Option<T> = None | Some(value: T)

  /** "%hhu": blanks, a sign, digits; the value is kept modulo 256. */
  function ScanByte(s: string): Option<nat> {
    var t := SkipSpaces(s);
    var signed := t != "" && (t[0] == '-' || t[0] == '+');
    var digits := if signed then t[1..] else t;
    if digits == "" || !IsDigit(digits[0]) then None
    else
      var v: int := DigitsValue(digits, 0);
      if signed && t[0] == '-' then Some((-v) % 256) else Some(v % 256)
  }

  /** Where the word s starts with ends. */
  function WordLength(s: string): (n: nat)
    ensures n <= |s| && (n < |s| ==> IsSpace(s[n]))
    ensures forall i :: 0 <= i < n ==> !IsSpace(s[i])
  {
    if s == "" || IsSpace(s[0]) then 0 else 1 + WordLength(s[1..])
  }

  /** "%128s": blanks, then a word of which 128 characters are kept. */
  function ScanWord(s: string): Option<string> {
    var t := SkipSpaces(s);
    if t == "" then None else Some(t[..Min(WordLength(t), FIELD_SIZE)])
  }

  // ---- requests ----

  /** What a start or trigger asks for. */
  datatype Query = ById(id: nat) | ByName(name: string)

  /** force-start, force-trigger, start and trigger, with what was scanned behind the colon, if anything. */
  datatype Command = Command(force: bool, trigger: bool, query: Option<Query>)

  predicate IsStartCommand(buf: string) {
    "start" <= buf || "force-start" <= buf || "trigger" <= buf || "force-trigger" <= buf
  }

  function ScanAfter(buf: string, literal: string, trigger: bool): Option<Query> {
    if !(literal <= buf) then None
    else if trigger then
      var word := ScanWord(buf[|literal|..]);
      if word.Some? then Some(ByName(word.value)) else None
    else
      var id := ScanByte(buf[|literal|..]);
      if id.Some? then Some(ById(id.value)) else None
  }

  function ParseCommand(buf: string): Command
    requires IsStartCommand(buf)
  {
    var force := buf[0] == 'f';
    var trigger := if force then buf[6] == 't' else buf[0] == 't';
    var literal := (if force then "force-" else "") + (if trigger then "trigger:" else "start:");
    Command(force, trigger, ScanAfter(buf, literal, trigger))
  }

  predicate Answers(w: WatchConfig, i: nat, q: Query) {
    w.isActive && match q
                  case ById(id) => i == id
                  case ByName(name) => Basename(w.filename) == name
  }

  /** The first active watch a query matches, or -1. */
  function Resolve(watches: seq<WatchConfig>, q: Query, from: nat): (r: int)
    requires from <= |watches|
    ensures r == -1 || from <= r < |watches|
    ensures r >= 0 ==> Answers(watches[r], r, q)
    ensures forall i :: from <= i < (if r >= 0 then r else |watches|) ==> !Answers(watches[i], i, q)
    decreases |watches| - from
  {
    if from == |watches| then -1
    else if Answers(watches[from], from, q) then from
    else Resolve(watches, q, from + 1)
  }

  /** What a query finds: an id only its own slot while that is active, a name the first watch with that basename. */
  lemma {:induction false} ResolveInFields(watches: seq<WatchConfig>, id: nat, name: string)
    ensures Resolve(watches, ById(id), 0) == if id < |watches| && watches[id].isActive then id else -1
    ensures var r := Resolve(watches, ByName(name), 0);
            && (r >= 0 ==> watches[r].isActive && Basename(watches[r].filename) == name)
            && (forall i :: 0 <= i < |watches| && (r < 0 || i < r) && watches[i].isActive ==>
                  Basename(watches[i].filename) != name)
  {
    if id < |watches| && watches[id].isActive {
      assert Answers(watches[id], id, ById(id));
    }
    var r := Resolve(watches, ByName(name), 0);
    assert forall i :: 0 <= i < |watches| && (r < 0 || i < r) ==> !Answers(watches[i], i, ByName(name));
  }

  /** handle_ipc for the commands that start something: the status replied, and the slot spawned or -1. */
  method HandleStart(table: Table, watchConfig: array<WatchConfig>, buf: string, blocked: bool, scanError: bool)
    returns (status: string, spawned: int)
    requires table.Valid() && watchConfig.Length == table.size && IsStartCommand(buf)
    ensures var c, ids, watches := ParseCommand(buf), table.Contents().watchIds, watchConfig[..];
            var w := if c.query.Some? then Resolve(watches, c.query.value, 0) else -1;
            var running := w in ids;
            var blocker := exists v :: 0 <= v < |watches| && v in ids && watches[v].isActive && watches[v].blockSpawns;
            && spawned == (if w >= 0 && !running &&
                              ((c.force && !watches[w].blockSpawns) || (!blocker && !blocked)) then w else -1)
            && status == if spawned >= 0 then "OK\n"
                         else if w >= 0 then
                           if running then "WARN_ALREADY_RUNNING\n"
                           else if blocker then "WARN_SPAWN_BLOCKED\n" else "WARN_SPAWN_INHIBITED\n"
                         else if c.query.Some? then "ERR_INVALID_ID\n"
                         else (if scanError then "ERR_REALLY_MALFORMED_CMD\n" else "ERR_MALFORMED_CMD\n") +
                              "Expected format is " + (if c.force then "force-" else "") +
                              (if c.trigger then "trigger:name\n" else "start:id\n")
  {
    spawned := -1;
    var c := ParseCommand(buf);
    if c.query.None? {
      status := (if scanError then "ERR_REALLY_MALFORMED_CMD\n" else "ERR_MALFORMED_CMD\n") +
        "Expected format is " + (if c.force then "force-" else "") +
        (if c.trigger then "trigger:name\n" else "start:id\n");
      return;
    }
    var force := c.force;
    var watchId := -1;
    var i := 0;
    while i < watchConfig.Length
      invariant 0 <= i <= watchConfig.Length && watchId == -1
      invariant Resolve(watchConfig[..], c.query.value, 0) == Resolve(watchConfig[..], c.query.value, i)
    {
      if watchConfig[i].isActive {
        var hit := if c.trigger then Basename(watchConfig[i].filename) == c.query.value.name
                   else c.query.value.id == i;
        if hit {
          watchId := i;
          break;
        }
      }
      i := i + 1;
    }
    if watchId < 0 {
      return "ERR_INVALID_ID\n", -1;
    }
    var isWatchSpawned := table.IsWatchAlreadySpawned(watchId);
    var isBlockerSpawned := table.IsBlockerRunning(watchConfig);
    BlockerInFields(table.Contents().watchIds, watchConfig[..]);
    if force && watchConfig[watchId].blockSpawns {
      force := false;
    }
    if (force && !isWatchSpawned) || (!force && !isWatchSpawned && !isBlockerSpawned && !blocked) {
      spawned := watchId;
      status := "OK\n";
    } else if isWatchSpawned {
      status := "WARN_ALREADY_RUNNING\n";
    } else if !force && isBlockerSpawned {
      status := "WARN_SPAWN_BLOCKED\n";
    } else if !force && blocked {
      status := "WARN_SPAWN_INHIBITED\n";
    } else {
      assert false;
    }
  }

  // ---- listing ----

  /** A number in decimal. */
  function Dec(n: nat): (s: string)
    ensures s != "" && forall i :: 0 <= i < |s| ==> IsDigit(s[i])
    ensures if n == 0 then s == "0" else s[0] != '0'
  {
    var digit := [('0' as int + n % 10) as char];
    if n < 10 then digit else Dec(n / 10) + digit
  }

  function Description(w: WatchConfig): string {
    Basename(w.filename) + (if w.labelText != "" then ":" + w.labelText else "")
  }

  /** id:basename or id:basename:label, with a line feed. */
  function Line(i: nat, w: WatchConfig): string {
    Dec(i) + ":" + (Description(w) + "\n")
  }

  predicate Listed(w: WatchConfig, gui: bool) {
    w.isActive && !(gui && w.hidden)
  }

  function Lines(watches: seq<WatchConfig>, gui: bool): seq<string> {
    if watches == [] then []
    else
      var n := |watches| - 1;
      Lines(watches[..n], gui) + if Listed(watches[n], gui) then [Line(n, watches[n])] else []
  }

  /** The reply to list and gui-list, packet by packet, without the final NUL. */
  method ListWatches(watchConfig: array<WatchConfig>, gui: bool) returns (lines: seq<string>)
    ensures lines == Lines(watchConfig[..], gui)
  {
    lines := [];
    for watchIdx := 0 to watchConfig.Length
      invariant lines == Lines(watchConfig[..watchIdx], gui)
    {
      assert watchConfig[..watchIdx + 1][..watchIdx] == watchConfig[..watchIdx];
      if watchConfig[watchIdx].isActive && !(gui && watchConfig[watchIdx].hidden) {
        lines := lines + [Line(watchIdx, watchConfig[watchIdx])];
      }
    }
    assert watchConfig[..watchConfig.Length] == watchConfig[..];
  }

  // ---- agreement ----

  /** Scanning a decimal leaves the scan as if its value had been read before. */
  lemma {:induction false} DecValue(n: nat, tail: string)
    ensures DigitsValue(Dec(n) + tail, 0) == DigitsValue(tail, n)
  {
    var digit := [('0' as int + n % 10) as char];
    if n < 10 {
      assert (digit + tail)[1..] == tail;
    } else {
      assert Dec(n) + tail == Dec(n / 10) + (digit + tail);
      DecValue(n / 10, digit + tail);
      assert (digit + tail)[1..] == tail;
    }
  }

  /** What a listing prints as id is scanned back as the same id. */
  lemma {:induction false} ScanPrintedId(n: nat, tail: string)
    requires n < 256 && (tail == "" || !IsDigit(tail[0]))
    ensures ScanByte(Dec(n) + tail) == Some(n)
  {
    var s := Dec(n) + tail;
    assert s[0] == Dec(n)[0] && IsDigit(s[0]);
    DecValue(n, tail);
  }

  /** Blanks are the space, and the five controls from tab to carriage return. */
  lemma {:induction false} BlankCharacters(c: char)
    ensures IsSpace(c) <==> c as int == 32 || 9 <= c as int <= 13
  {
  }

  predicate AllBlank(s: string) {
    forall i :: 0 <= i < |s| ==> IsSpace(s[i])
  }

  lemma {:induction false} BlanksSkipped(blanks: string, s: string)
    requires AllBlank(blanks)
    ensures SkipSpaces(blanks + s) == SkipSpaces(s)
  {
    if blanks == "" {
      assert blanks + s == s;
    } else {
      assert (blanks + s)[1..] == blanks[1..] + s;
      BlanksSkipped(blanks[1..], s);
    }
  }

  /** Any number behind blanks and a sign is scanned modulo 256, a negative one like its complement. */
  lemma {:induction false} NumberScanned(blanks: string, sign: string, n: nat, tail: string)
    requires AllBlank(blanks) && sign in {"", "+", "-"} && (tail == "" || !IsDigit(tail[0]))
    ensures var id := ScanByte(blanks + (sign + (Dec(n) + tail)));
            var v: int := n;
            id.Some? && id.value == (if sign == "-" then -v else v) % 256
  {
    hide SkipSpaces, Dec;
    var digits := Dec(n) + tail;
    var t := sign + digits;
    DecValue(n, tail);
    BlanksSkipped(blanks, t);
    assert digits[0] == Dec(n)[0] && IsDigit(digits[0]);
    if sign == "" {
      assert t == digits;
    } else {
      assert t[0] == sign[0] && t[1..] == digits;
    }
  }

  /** Without a digit there, nothing is. */
  lemma {:induction false} NothingScanned(blanks: string, sign: string, rest: string)
    requires AllBlank(blanks) && sign in {"", "+", "-"} && (rest == "" || !IsDigit(rest[0]))
    requires sign == "" && rest != "" ==> !IsSpace(rest[0]) && rest[0] != '+' && rest[0] != '-'
    ensures ScanByte(blanks + (sign + rest)) == None
  {
    BlanksSkipped(blanks, sign + rest);
    if sign == "" {
      assert sign + rest == rest;
    } else {
      assert (sign + rest)[0] == sign[0] && (sign + rest)[1..] == rest;
    }
  }

  predicate Blank(s: string) {
    s == "" || IsSpace(s[0])
  }

  /** A word is scanned back unchanged, behind any blanks, exactly when it is not empty and holds no blank. */
  lemma {:induction false} ScanWordBack(blanks: string, name: string, tail: string)
    requires AllBlank(blanks) && |name| <= 128 && Blank(tail)
    ensures ScanWord(blanks + (name + tail)) == Some(name) <==>
            name != "" && forall i :: 0 <= i < |name| ==> !IsSpace(name[i])
  {
    var s := name + tail;
    var t := SkipSpaces(s);
    BlanksSkipped(blanks, s);
    if name != "" && forall i :: 0 <= i < |name| ==> !IsSpace(name[i]) {
      assert s[0] == name[0] && t == s;
      assert WordLength(s) == |name| by {
        assert forall i :: 0 <= i < |name| ==> s[i] == name[i];
        assert |name| < |s| ==> s[|name|] == tail[0];
      }
    } else if t != "" {
      var n := Min(WordLength(t), FIELD_SIZE);
      assert forall i :: 0 <= i < n ==> !IsSpace(t[..n][i]);
      if name == "" {
        assert n > 0;
      } else {
        var i :| 0 <= i < |name| && IsSpace(name[i]);
      }
    }
  }

  lemma {:induction false} ParsePrefix(force: bool, trigger: bool, rest: string)
    ensures var literal := (if force then "force-" else "") + (if trigger then "trigger:" else "start:");
            && IsStartCommand(literal + rest)
            && ParseCommand(literal + rest) == Command(force, trigger, ScanAfter(literal + rest, literal, trigger))
            && literal <= literal + rest && (literal + rest)[|literal|..] == rest
  {
  }

  /** Which request it is, and that what it asks for is behind the colon. */
  lemma {:induction false} CommandExactly(buf: string)
    requires IsStartCommand(buf)
    ensures var c := ParseCommand(buf);
            var literal := (if c.force then "force-" else "") + (if c.trigger then "trigger:" else "start:");
            && (c.force <==> "force-start" <= buf || "force-trigger" <= buf)
            && (c.trigger <==> "trigger" <= buf || "force-trigger" <= buf)
            && (c.query.Some? <==> literal <= buf && if c.trigger then ScanWord(buf[|literal|..]).Some?
                                                     else ScanByte(buf[|literal|..]).Some?)
            && (c.query.Some? ==> c.query.value == if c.trigger then ByName(ScanWord(buf[|literal|..]).value)
                                                   else ById(ScanByte(buf[|literal|..]).value))
  {
    assert "force-start" <= buf ==> buf[6] == 's';
    assert "force-trigger" <= buf ==> buf[6] == 't';
  }

  /** A start request with a listed id, forced or not, resolves to the slot it was listed for. */
  lemma {:induction false} StartAgrees(watches: seq<WatchConfig>, i: nat, force: bool, tail: string)
    requires i < |watches| <= 127 && watches[i].isActive && (tail == "" || !IsDigit(tail[0]))
    ensures var buf := (if force then "force-" else "") + "start:" + (Dec(i) + tail);
            && IsStartCommand(buf)
            && ParseCommand(buf) == Command(force, false, Some(ById(i)))
            && Resolve(watches, ById(i), 0) == i
  {
    ParsePrefix(force, false, Dec(i) + tail);
    ScanPrintedId(i, tail);
    assert Answers(watches[i], i, ById(i));
  }

  /** A trigger request with a listed basename resolves to its slot exactly when that is one plain word. */
  lemma {:induction false} TriggerAgrees(watches: seq<WatchConfig>, i: nat, force: bool, tail: string)
    requires TableOk(watches) && i < |watches| && watches[i].isActive && Blank(tail)
    ensures var name := Basename(watches[i].filename);
            var buf := (if force then "force-" else "") + "trigger:" + (name + tail);
            && IsStartCommand(buf)
            && var c := ParseCommand(buf);
               (c.query.Some? && Resolve(watches, c.query.value, 0) == i) <==>
               (name != "" && forall k :: 0 <= k < |name| ==> !IsSpace(name[k]))
  {
    hide TableOk, IsStartCommand, ParseCommand, Basename;
    var name := Basename(watches[i].filename);
    ParsePrefix(force, true, name + tail);
    assert "" + (name + tail) == name + tail;
    ScanWordBack("", name, tail);
    ResolveName(watches, i);
  }

  lemma {:induction false} ResolveName(watches: seq<WatchConfig>, i: nat)
    requires TableOk(watches) && i < |watches| && watches[i].isActive
    ensures Resolve(watches, ByName(Basename(watches[i].filename)), 0) == i
    ensures forall name :: Resolve(watches, ByName(name), 0) == i ==> name == Basename(watches[i].filename)
  {
  }

  /** The text in front of a line's first colon. */
  function FirstField(line: string): string {
    if line == "" || line[0] == ':' then "" else [line[0]] + FirstField(line[1..])
  }

  lemma {:induction false} FirstFieldOf(id: string, rest: string)
    requires forall k :: 0 <= k < |id| ==> id[k] != ':'
    ensures FirstField(id + ":" + rest) == id
  {
    var s := id + ":" + rest;
    if id == "" {
      assert s[0] == ':';
    } else {
      assert s[1..] == id[1..] + ":" + rest;
      FirstFieldOf(id[1..], rest);
    }
  }

  lemma {:induction false} LineStartsWithId(i: nat, w: WatchConfig)
    ensures FirstField(Line(i, w)) == Dec(i)
  {
    FirstFieldOf(Dec(i), Description(w) + "\n");
  }

  /** A listing has one line for each watch to list, and no other. */
  lemma {:induction false} LinesAreListed(watches: seq<WatchConfig>, gui: bool, line: string)
    ensures line in Lines(watches, gui) <==>
            exists i :: 0 <= i < |watches| && watches[i].isActive && !(gui && watches[i].hidden) &&
                        line == Line(i, watches[i])
  {
    hide Line, Lines;
    LinesOfListed(watches, gui, line);
  }

  lemma {:induction false} LinesOfListed(watches: seq<WatchConfig>, gui: bool, line: string)
    ensures line in Lines(watches, gui) <==>
            exists i :: 0 <= i < |watches| && Listed(watches[i], gui) && line == Line(i, watches[i])
  {
    if watches == [] {
    } else {
      var n := |watches| - 1;
      hide Line, Listed;
      LinesOfListed(watches[..n], gui, line);
      assert forall i :: 0 <= i < n ==> watches[..n][i] == watches[i];
    }
  }

  /** A line's fields: the id, the basename, and the label exactly when there is one. */
  lemma {:induction false} LineInFields(i: nat, w: WatchConfig)
    ensures Line(i, w) == if w.labelText == "" then Dec(i) + ":" + Basename(w.filename) + "\n"
                          else Dec(i) + ":" + Basename(w.filename) + ":" + w.labelText + "\n"
  {
  }

  /** The lines come in the order of the slots. */
  lemma {:induction false} LinesInOrder(watches: seq<WatchConfig>, gui: bool, a: nat, b: nat) returns (i: nat, j: nat)
    requires a < b < |Lines(watches, gui)|
    ensures i < j < |watches| && watches[i].isActive && watches[j].isActive
    ensures Lines(watches, gui)[a] == Line(i, watches[i]) && Lines(watches, gui)[b] == Line(j, watches[j])
  {
    hide Line;
    var n := |watches| - 1;
    if b < |Lines(watches[..n], gui)| {
      i, j := LinesInOrder(watches[..n], gui, a, b);
    } else {
      j := n;
      LinesOfListed(watches[..n], gui, Lines(watches, gui)[a]);
      i :| 0 <= i < n && Listed(watches[i], gui) && Lines(watches, gui)[a] == Line(i, watches[..n][i]);
    }
  }

  /** Sending back the id of any line of a listing starts the very watch the line describes. */
  lemma {:induction false} ListedLineStarts(watches: seq<WatchConfig>, gui: bool, line: string, force: bool)
    returns (i: nat)
    requires |watches| <= 127 && line in Lines(watches, gui)
    ensures i < |watches| && watches[i].isActive && !(gui && watches[i].hidden) && line == Line(i, watches[i])
    ensures var buf := (if force then "force-" else "") + "start:" + (FirstField(line) + "\n");
            IsStartCommand(buf) && ParseCommand(buf).query.Some? &&
            Resolve(watches, ParseCommand(buf).query.value, 0) == i
  {
    LinesOfListed(watches, gui, line);
    i :| 0 <= i < |watches| && Listed(watches[i], gui) && line == Line(i, watches[i]);
    hide Line, Lines, ParseCommand, IsStartCommand;
    LineStartsWithId(i, watches[i]);
    StartAgrees(watches, i, force, "\n");
  }
}
