/** The parser of plugin/hpsa_plugin/hpsa.py for the indented listings of ssacli.

    Dictionaries are objects that are reached both from their parents and by indentation, so
    the model keeps them in a store: a dictionary is a list of cells in insertion order, and
    a cell may refer to another dictionary. */
module Ssacli {
  import opened Wrappers
  import opened Texts

  // ----- strings

  /** What Python's str.strip takes off. */
  predicate White(c: char) {
    || c == ' ' || '\t' <= c <= '\r' || '\U{1C}' <= c <= '\U{1F}' || c == '\U{85}' || c == '\U{A0}'
    || c == '\U{1680}' || '\U{2000}' <= c <= '\U{200A}' || c == '\U{2028}' || c == '\U{2029}'
    || c == '\U{202F}' || c == '\U{205F}' || c == '\U{3000}'
  }

  function LStrip(s: string): (r: string)
    ensures |r| <= |s| && (r == [] || !White(r[0]))
  {
    if s != [] && White(s[0]) then LStrip(s[1..]) else s
  }

  function RStrip(s: string): string {
    if s != [] && White(s[|s| - 1]) then RStrip(s[..|s| - 1]) else s
  }

  function Indent(line: string): nat {
    |line| - |LStrip(line)|
  }

  predicate StartsWith(s: string, p: string) {
    p <= s
  }

  /** At the first ": ": what is before it and what is after it. */
  function CutColon(s: string): Option<(string, string)> {
    if |s| < 2 then None
    else if s[..2] == ": " then Some(("", s[2..]))
    else
      match CutColon(s[1..])
      case None => None
      case Some((k, v)) => Some(([s[0]] + k, v))
  }

  // ----- the store

  datatype Ref = Nothing | Text(text: string) | Sub(id: nat)

  datatype Cell = Cell(key: string, ref: Ref)

  type Store = seq<seq<Cell>>

  predicate HasKey(d: seq<Cell>, key: string) {
    exists c | c in d :: c.key == key
  }

  /** `d[key] = ref`. */
  function Put(d: seq<Cell>, key: string, ref: Ref): seq<Cell> {
    if d == [] then [Cell(key, ref)]
    else if d[0].key == key then [Cell(key, ref)] + d[1..]
    else [d[0]] + Put(d[1..], key, ref)
  }

  // ----- one line

  const REQUIRED := ["Array:", "unassigned", "HBA Drives", "array", "Controller Status",
                     "Cache Status", "Battery/Capacitor Status", "Unassigned", "Array"]

  predicate Required(title: string) {
    exists r | r in REQUIRED :: StartsWith(title, r)
  }

  /** Key and value of a line that starts no section. */
  function LeafCell(line: string): Cell {
    match CutColon(line)
    case None => Cell(LStrip(line), Nothing)
    case Some((k, v)) => Cell(LStrip(k), Text(RStrip(LStrip(v))))
  }

  /** `data` is dictionary 0; `ptrs` is `indent_2_data`. */
  datatype State = State(store: Store, ptrs: map<nat, nat>, keep: bool)

  predicate Sane(st: State) {
    forall i | i in st.ptrs :: st.ptrs[i] < |st.store|
  }

  /** Whether the line is in a section that is kept. */
  function Keeps(top: nat, second: nat, keep: bool, cur: string, nxt: string): bool {
    if Indent(cur) == second then Indent(nxt) == Indent(cur) || Required(LStrip(cur))
    else Indent(cur) == top || keep
  }

  /** One round of the loop, None for a KeyError or a duplicate section. */
  function StepLine(top: nat, second: nat, st: State, cur: string, nxt: string): (r: Option<State>)
    requires Sane(st)
    ensures r.Some? ==> Sane(r.value)
  {
    var ci, ni := Indent(cur), Indent(nxt);
    if !Keeps(top, second, st.keep, cur, nxt) then Some(st.(keep := false))
    else if ci !in st.ptrs then None
    else
      var p := st.ptrs[ci];
      if ni > ci then
        if HasKey(st.store[p], LStrip(cur)) then None
        else
          var d := st.store[p] + [Cell(LStrip(cur), Sub(|st.store|))];
          Some(State(st.store[p := d] + [[]], st.ptrs[ni := |st.store|], true))
      else
        var c := LeafCell(cur);
        Some(State(st.store[p := Put(st.store[p], c.key, c.ref)], st.ptrs, true))
  }

  /** The line after the next one to read. */
  function Following(lines: seq<string>): string {
    if |lines| > 1 then lines[1] else ""
  }

  function RunLines(top: nat, second: nat, st: State, lines: seq<string>): Option<State>
    requires Sane(st)
    decreases |lines|
  {
    if lines == [] then Some(st)
    else
      match StepLine(top, second, st, lines[0], Following(lines))
      case None => None
      case Some(s) => RunLines(top, second, s, lines[1..])
  }

  // ----- before the loop

  const WARNING := "Warning:"
  const NOTICE := "Encryption is enabled"
  const NOTE := "Note:"

  /** The end of a warning: the next empty line, or the last line. */
  function WarningEnd(ls: seq<string>, i: nat): (r: nat)
    requires i < |ls|
    ensures i <= r < |ls| && (r + 1 == |ls| || (i < r && ls[r] == ""))
    decreases |ls| - i
  {
    if i + 1 == |ls| then i
    else if ls[i + 1] == "" then i + 1
    else WarningEnd(ls, i + 1)
  }

  /** Just past the end of an encryption notice. */
  function NoticeEnd(ls: seq<string>, i: nat): (r: nat)
    requires i <= |ls|
    ensures i <= r <= |ls|
    decreases |ls| - i
  {
    if i == |ls| then i else if ls[i] == "" then i + 1 else NoticeEnd(ls, i + 1)
  }

  /** Where the line that is kept or dropped next is, past warnings and notices. */
  function Skip(ls: seq<string>, i: nat): (r: nat)
    requires i < |ls|
    ensures i <= r <= |ls|
  {
    var i := if StartsWith(ls[i], WARNING) then WarningEnd(ls, i) else i;
    if StartsWith(ls[i], NOTICE) then NoticeEnd(ls, i) else i
  }

  /** `_sanitize_output` from line `i` on, None for an IndexError. */
  function Sanitize(ls: seq<string>, i: nat, acc: seq<string>): Option<seq<string>>
    requires i <= |ls|
    decreases |ls| - i
  {
    if i == |ls| then Some(acc)
    else if ls[i] == "" then Sanitize(ls, i + 1, acc)
    else
      var j := Skip(ls, i);
      if j == |ls| then None
      else Sanitize(ls, j + 1, if StartsWith(ls[j], NOTE) then acc else acc + [ls[j]])
  }

  function Spaces(n: nat): (s: string)
    ensures |s| == n
  {
    seq(n, _ => ' ')
  }

  const MIRROR := "Mirror Group "

  /** One line of `_fix_mirror_group_lines` and the level it leaves behind. */
  function FixLine(level: Option<nat>, line: string): (string, Option<nat>) {
    var n := Indent(line);
    if StartsWith(LStrip(line), MIRROR) then (line, Some(n))
    else if level.Some? && n < level.value then (Spaces(2 * (level.value - n)) + line, level)
    else (line, None)
  }

  function FixLines(level: Option<nat>, ls: seq<string>): seq<string>
    decreases |ls|
  {
    if ls == [] then [] else [FixLine(level, ls[0]).0] + FixLines(FixLine(level, ls[0]).1, ls[1..])
  }

  /** The smallest indentation above `lo`. */
  function LeastIndent(ls: seq<string>, lo: int): (r: Option<nat>)
    ensures r.Some? ==> lo < r.value
  {
    if ls == [] then None
    else
      var n, rest := Indent(ls[0]), LeastIndent(ls[1..], lo);
      if n <= lo then rest
      else if rest.Some? && rest.value < n then rest
      else Some(n)
  }

  /** `_parse_ssacli_output` on lines; None for an exception, which a listing with fewer
      than two indentations raises as well. */
  function ParseLines(ls: seq<string>): Option<Store> {
    match LeastIndent(ls, -1)
    case None => None
    case Some(top) =>
      match LeastIndent(ls, top)
      case None => None
      case Some(second) =>
        match RunLines(top, second, State([[]], map[top := 0], false), ls)
        case None => None
        case Some(st) => Some(st.store)
  }

  function Parse(output: string): Option<Store> {
    match Sanitize(Split(output, '\n'), 0, [])
    case None => None
    case Some(ls) => ParseLines(FixLines(None, ls))
  }

  // ----- the loops

  /** The loop over the lines of a warning. */
  method SkipWarning(ls: seq<string>, start: nat) returns (i: nat)
    requires start < |ls|
    ensures i == WarningEnd(ls, start)
  {
    i := start;
    var z := start + 1;
    while z < |ls|
      invariant z == i + 1 <= |ls|
      invariant WarningEnd(ls, i) == WarningEnd(ls, start)
    {
      i := i + 1;
      if ls[z] == "" {
        break;
      }
      z := z + 1;
    }
  }

  /** The loop over the lines of a notice. */
  method SkipNotice(ls: seq<string>, start: nat) returns (i: nat)
    requires start < |ls|
    ensures i == NoticeEnd(ls, start)
  {
    i := start;
    var z := start;
    while z < |ls|
      invariant z == i <= |ls|
      invariant NoticeEnd(ls, i) == NoticeEnd(ls, start)
    {
      i := i + 1;
      if ls[z] == "" {
        break;
      }
      z := z + 1;
    }
  }

  /** `_sanitize_output`. */
  method SanitizeOutput(ls: seq<string>) returns (r: Option<seq<string>>)
    ensures r == Sanitize(ls, 0, [])
  {
    hide StartsWith, WarningEnd, NoticeEnd;
    var sanitized: seq<string> := [];
    var i := 0;
    while i < |ls|
      invariant i <= |ls|
      invariant Sanitize(ls, i, sanitized) == Sanitize(ls, 0, [])
      decreases |ls| - i
    {
      if ls[i] != "" {
        if StartsWith(ls[i], WARNING) {
          i := SkipWarning(ls, i);
        }
        if StartsWith(ls[i], NOTICE) {
          i := SkipNotice(ls, i);
        }
        if i == |ls| {
          return None;
        }
        if !StartsWith(ls[i], NOTE) {
          sanitized := sanitized + [ls[i]];
        }
      }
      i := i + 1;
    }
    return Some(sanitized);
  }

  /** One round of `_fix_mirror_group_lines`. */
  method FixMirrorLine(lines: array<string>, i: nat, before: Option<nat>) returns (level: Option<nat>)
    requires i < lines.Length
    modifies lines
    ensures (lines[i], level) == FixLine(before, old(lines[i]))
    ensures forall k | 0 <= k < lines.Length && k != i :: lines[k] == old(lines[k])
  {
    hide LStrip, StartsWith;
    level := before;
    var n := |lines[i]| - |LStrip(lines[i])|;
    if StartsWith(LStrip(lines[i]), MIRROR) {
      level := Some(n);
    } else if level.Some? && n < level.value {
      lines[i] := Spaces(2 * (level.value - n)) + lines[i];
    } else if level.Some? {
      level := None;
    }
  }

  /** `_fix_mirror_group_lines`, in place. */
  method FixMirrorGroupLines(lines: array<string>)
    modifies lines
    ensures lines[..] == FixLines(None, old(lines[..]))
  {
    hide FixLines, FixLine;
    ghost var before := lines[..];
    var level: Option<nat> := None;
    assert lines[..0] == [] && before[0..] == before;
    for i := 0 to lines.Length
      invariant forall k | i <= k < lines.Length :: lines[k] == before[k]
      invariant lines[..i] + FixLines(level, before[i..]) == FixLines(None, before)
    {
      ghost var done := lines[..i];
      FixNext(level, before, i, done);
      level := FixMirrorLine(lines, i, level);
      assert lines[..i + 1] == done + [lines[i]];
    }
    assert before[lines.Length..] == [];
    FixNone(level);
  }

  lemma FixNext(level: Option<nat>, ls: seq<string>, i: nat, done: seq<string>)
    requires i < |ls|
    ensures var (line, next) := FixLine(level, ls[i]);
            done + FixLines(level, ls[i..]) == done + [line] + FixLines(next, ls[i + 1..])
  {
    hide FixLine;
    assert ls[i..][0] == ls[i] && ls[i..][1..] == ls[i + 1..];
  }

  lemma FixNone(level: Option<nat>)
    ensures FixLines(level, []) == []
  {
  }

  /** The loop over the required section names. */
  method IsRequired(title: string) returns (required: bool)
    ensures required == Required(title)
  {
    hide StartsWith;
    required := false;
    for k := 0 to |REQUIRED|
      invariant required <==> exists j | 0 <= j < k :: StartsWith(title, REQUIRED[j])
    {
      if StartsWith(title, REQUIRED[k]) {
        required := true;
      }
    }
  }

  /** Whether the line is in a section that is kept, as the loop tells it. */
  method FlagRequired(top: nat, second: nat, keep: bool, cur: string, nxt: string) returns (flag: bool)
    ensures flag == Keeps(top, second, keep, cur, nxt)
  {
    hide LStrip, Required;
    flag := keep;
    var ci, ni := Indent(cur), Indent(nxt);
    if ci == top {
      flag := true;
    }
    if ci == second {
      flag := false;
      if ni == ci {
        flag := true;
      } else {
        flag := IsRequired(LStrip(cur));
      }
    }
  }

  /** One round of the loop over the lines. */
  method ParseLine(top: nat, second: nat, st: State, cur: string, nxt: string) returns (r: Option<State>)
    requires Sane(st)
    ensures r == StepLine(top, second, st, cur, nxt)
  {
    hide LStrip, Indent, Keeps, LeafCell, HasKey;
    var store, ptrs := st.store, st.ptrs;
    var flag := FlagRequired(top, second, st.keep, cur, nxt);
    if !flag {
      return Some(State(store, ptrs, flag));
    }
    var ci, ni := Indent(cur), Indent(nxt);
    if ci !in ptrs {
      return None;
    }
    var p := ptrs[ci];
    if ni > ci {
      if HasKey(store[p], LStrip(cur)) {
        return None;
      }
      store := store[p := store[p] + [Cell(LStrip(cur), Sub(|store|))]] + [[]];
      ptrs := ptrs[ni := |store| - 1];
    } else {
      var c := LeafCell(cur);
      store := store[p := Put(store[p], c.key, c.ref)];
    }
    return Some(State(store, ptrs, flag));
  }

  method ParseSsacliLines(ls: seq<string>) returns (r: Option<Store>)
    ensures r == ParseLines(ls)
  {
    hide StepLine, LeastIndent;
    var top := LeastIndent(ls, -1);
    if top.None? {
      return None;
    }
    var second := LeastIndent(ls, top.value);
    if second.None? {
      return None;
    }
    var st := State([[]], map[top.value := 0], false);
    ghost var start := st;
    for k := 0 to |ls|
      invariant Sane(st)
      invariant RunLines(top.value, second.value, st, ls[k..]) == RunLines(top.value, second.value, start, ls)
    {
      assert ls[k..][0] == ls[k] && ls[k..][1..] == ls[k + 1..];
      var nxt := if k + 1 == |ls| then "" else ls[k + 1];
      assert nxt == Following(ls[k..]);
      var s := ParseLine(top.value, second.value, st, ls[k], nxt);
      if s.None? {
        return None;
      }
      st := s.value;
    }
    return Some(st.store);
  }

  /** `_parse_ssacli_output`. */
  method ParseSsacliOutput(output: string) returns (r: Option<Store>)
    ensures r == Parse(output)
  {
    hide Sanitize, FixLines, ParseLines;
    var ls := SanitizeOutput(Split(output, '\n'));
    if ls.None? {
      return None;
    }
    var lines := new string[|ls.value|](i requires 0 <= i < |ls.value| => ls.value[i]);
    assert lines[..] == ls.value;
    FixMirrorGroupLines(lines);
    r := ParseSsacliLines(lines[..]);
  }
}
