/** What `_fix_mirror_group_lines` of plugin/hpsa_plugin/hpsa.py does to a whole listing. */
module SsacliMirror {
  import opened Wrappers
  import opened Ssacli

  predicate Mirror(line: string) {
    StartsWith(LStrip(line), "Mirror Group ")
  }

  /** Line `m` opens a mirror group, and from there to line `k` every line is an ordinary one
      with less indentation than it. */
  predicate Below(ls: seq<string>, m: nat, k: nat) {
    && m < k <= |ls| && Mirror(ls[m])
    && forall j | m < j < k :: !Mirror(ls[j]) && Indent(ls[j]) < Indent(ls[m])
  }

  /** Line `k` is shunted because of the mirror group at `m`. */
  predicate Shunted(ls: seq<string>, m: nat, k: nat) {
    m < k && Below(ls, m, k + 1)
  }

  /** The level with which the loop reaches line `k`. */
  function LevelAt(ls: seq<string>, k: nat): Option<nat>
    requires k <= |ls|
  {
    if k == 0 then None else FixLine(LevelAt(ls, k - 1), ls[k - 1]).1
  }

  /** A mirror group is in force exactly when some line opened it and no line since has
      ended it. */
  lemma {:induction false} LevelIs(ls: seq<string>, k: nat)
    requires k <= |ls|
    ensures match LevelAt(ls, k)
            case None => forall m: nat :: !Below(ls, m, k)
            case Some(n) => exists m: nat :: Below(ls, m, k) && m < |ls| && Indent(ls[m]) == n
  {
    hide Indent, LStrip, StartsWith, Spaces;
    if k > 0 {
      LevelIs(ls, k - 1);
      var line := ls[k - 1];
      if Mirror(line) {
        assert Below(ls, k - 1, k);
      } else {
        forall m: nat ensures Below(ls, m, k) <==> Below(ls, m, k - 1) && Indent(line) < Indent(ls[m]) {
        }
        if LevelAt(ls, k - 1).Some? {
          var m: nat :| Below(ls, m, k - 1) && Indent(ls[m]) == LevelAt(ls, k - 1).value;
          OneGroup(ls, m, k - 1);
        }
      }
    }
  }

  /** At most one group is in force. */
  lemma OneGroup(ls: seq<string>, m: nat, k: nat)
    requires k <= |ls| && Below(ls, m, k)
    ensures forall o: nat | Below(ls, o, k) :: o == m
  {
  }

  lemma {:induction false} FixedAt(ls: seq<string>, i: nat, k: nat)
    requires i <= k < |ls|
    ensures |FixLines(LevelAt(ls, i), ls[i..])| == |ls| - i
    ensures FixLines(LevelAt(ls, i), ls[i..])[k - i] == FixLine(LevelAt(ls, k), ls[k]).0
    decreases k - i
  {
    hide FixLine;
    assert ls[i..][0] == ls[i] && ls[i..][1..] == ls[i + 1..];
    FixedLength(LevelAt(ls, i), ls[i..]);
    if i < k {
      FixedAt(ls, i + 1, k);
    }
  }

  lemma {:induction false} FixedLength(level: Option<nat>, ls: seq<string>)
    ensures |FixLines(level, ls)| == |ls|
    decreases |ls|
  {
    hide FixLine;
    if ls != [] {
      FixedLength(FixLine(level, ls[0]).1, ls[1..]);
    }
  }

  /** In any listing a line below a mirror group with less indentation than it is shunted
      by twice what it lacks, and every other line is kept as it is. */
  lemma MirrorLines(ls: seq<string>, k: nat)
    requires k < |ls|
    ensures |FixLines(None, ls)| == |ls|
    ensures var now := FixLines(None, ls)[k];
            && (forall m: nat | m < k && Shunted(ls, m, k) ::
                  now == Spaces(2 * (Indent(ls[m]) - Indent(ls[k]))) + ls[k])
            && ((forall m: nat | m < k :: !Shunted(ls, m, k)) ==> now == ls[k])
  {
    hide Indent, LStrip, StartsWith, FixLines, Spaces, LevelAt, Below, Shunted;
    FixedLength(None, ls);
    assert ls[0..] == ls;
    assert LevelAt(ls, 0) == None by { FirstLevel(ls); }
    FixedAt(ls, 0, k);
    LevelIs(ls, k);
    ShuntedIff(ls, k);
    if LevelAt(ls, k).Some? {
      var m: nat :| Below(ls, m, k) && Indent(ls[m]) == LevelAt(ls, k).value;
      OneGroup(ls, m, k);
    }
  }

  lemma ShuntedIff(ls: seq<string>, k: nat)
    requires k < |ls|
    ensures forall m: nat :: Below(ls, m, k) ==> m < k
    ensures forall m: nat :: Shunted(ls, m, k) <==>
                             Below(ls, m, k) && !Mirror(ls[k]) && Indent(ls[k]) < Indent(ls[m])
  {
    hide Indent, Mirror;
  }

  lemma FirstLevel(ls: seq<string>)
    ensures LevelAt(ls, 0) == None
  {
  }
}
