/** What `_sanitize_output` of plugin/hpsa_plugin/hpsa.py makes of any listing, told line by
    line: which lines are kept, and when the loop runs off the end. */
module SsacliSanitize {
  import opened Wrappers
  import opened Ssacli

  /** What a line is read as: an ordinary one, the inside of a warning, the inside of an
      encryption notice, or the line right after a notice, which is taken unseen. */
  datatype Mode = Plain | InWarning | InNotice | AfterNotice

  predicate OpensNotice(m: Mode, line: string, last: bool) {
    StartsWith(line, NOTICE) && (m == Plain || (m == InWarning && last))
  }

  /** How the line after this one is read. */
  function Next(m: Mode, line: string, last: bool): Mode {
    if OpensNotice(m, line, last) then InNotice
    else
      match m
      case Plain => if StartsWith(line, WARNING) && !last then InWarning else Plain
      case InWarning => if line == "" || last then Plain else InWarning
      case InNotice => if line == "" then AfterNotice else InNotice
      case AfterNotice => Plain
  }

  predicate KeepsLine(m: Mode, line: string, last: bool) {
    && !StartsWith(line, NOTE) && !OpensNotice(m, line, last)
    && match m
       case Plain => line != "" && (StartsWith(line, WARNING) ==> last)
       case InWarning => line == "" || last
       case InNotice => false
       case AfterNotice => true
  }

  function ModeAt(ls: seq<string>, k: nat): Mode
    requires k <= |ls|
  {
    if k == 0 then Plain else Next(ModeAt(ls, k - 1), ls[k - 1], k == |ls|)
  }

  predicate KeptAt(ls: seq<string>, k: nat)
    requires k < |ls|
  {
    KeepsLine(ModeAt(ls, k), ls[k], k + 1 == |ls|)
  }

  /** The lines from `i` on that are kept. */
  function KeptLines(ls: seq<string>, i: nat): seq<string>
    requires i <= |ls|
    decreases |ls| - i
  {
    if i == |ls| then []
    else if KeptAt(ls, i) then [ls[i]] + KeptLines(ls, i + 1)
    else KeptLines(ls, i + 1)
  }

  /** The listing ends inside a notice or with the empty line that ends one. */
  predicate Unended(ls: seq<string>) {
    ModeAt(ls, |ls|) == InNotice || ModeAt(ls, |ls|) == AfterNotice
  }

  // ----- the loop against the modes

  lemma EmptyStarts()
    ensures !StartsWith("", WARNING) && !StartsWith("", NOTICE) && !StartsWith("", NOTE)
  {
  }

  lemma WarningIsNoNotice(line: string)
    requires StartsWith(line, WARNING)
    ensures !StartsWith(line, NOTICE) && line != ""
  {
    assert line[0] == 'W';
  }

  lemma {:induction false} WarningRun(ls: seq<string>, i: nat)
    requires i + 1 < |ls| && ModeAt(ls, i + 1) == InWarning && !KeptAt(ls, i)
    ensures var e := WarningEnd(ls, i);
            i < e && ModeAt(ls, e) == InWarning && KeptLines(ls, i) == KeptLines(ls, e)
    decreases |ls| - i
  {
    hide StartsWith;
    if ls[i + 1] != "" && i + 2 < |ls| {
      WarningRun(ls, i + 1);
    }
  }

  lemma {:induction false} NoticeRun(ls: seq<string>, i: nat)
    requires i <= |ls| && ModeAt(ls, i) == InNotice
    ensures var e := NoticeEnd(ls, i);
            if e < |ls| then ModeAt(ls, e) == AfterNotice && KeptLines(ls, i) == KeptLines(ls, e) else Unended(ls)
    decreases |ls| - i
  {
    hide StartsWith;
    if i < |ls| && ls[i] != "" {
      NoticeRun(ls, i + 1);
    }
  }

  lemma SkipNoticeMode(ls: seq<string>, i: nat)
    requires i < |ls| && OpensNotice(ModeAt(ls, i), ls[i], i + 1 == |ls|)
    ensures var j := NoticeEnd(ls, i);
            if j == |ls| then Unended(ls)
            else && KeptLines(ls, i) == KeptLines(ls, j) && ModeAt(ls, j + 1) == Plain
                 && (KeptAt(ls, j) <==> !StartsWith(ls[j], NOTE))
  {
    EmptyStarts();
    hide StartsWith;
    NoticeRun(ls, i + 1);
  }

  /** Past warnings and notices the loop is at the next line to be kept or dropped. */
  lemma SkipMode(ls: seq<string>, i: nat)
    requires i < |ls| && ModeAt(ls, i) == Plain && ls[i] != ""
    ensures var j := Skip(ls, i);
            if j == |ls| then Unended(ls)
            else && KeptLines(ls, i) == KeptLines(ls, j) && ModeAt(ls, j + 1) == Plain
                 && (KeptAt(ls, j) <==> !StartsWith(ls[j], NOTE))
  {
    EmptyStarts();
    var e := i;
    if StartsWith(ls[i], WARNING) {
      WarningIsNoNotice(ls[i]);
      e := WarningEnd(ls, i);
      if i + 1 < |ls| {
        WarningRun(ls, i);
      }
    }
    if StartsWith(ls[e], NOTICE) {
      SkipNoticeMode(ls, e);
    }
  }

  lemma {:induction false} SanitizeFrom(ls: seq<string>, i: nat, acc: seq<string>)
    requires i <= |ls| && ModeAt(ls, i) == Plain
    ensures Sanitize(ls, i, acc) == if Unended(ls) then None else Some(acc + KeptLines(ls, i))
    decreases |ls| - i
  {
    if i == |ls| {
      assert acc + [] == acc;
    } else if ls[i] == "" {
      EmptyStarts();
      hide StartsWith;
      SanitizeFrom(ls, i + 1, acc);
    } else {
      SkipMode(ls, i);
      hide Skip, ModeAt, KeptAt, Unended, StartsWith;
      var j := Skip(ls, i);
      if j < |ls| {
        var more := if StartsWith(ls[j], NOTE) then acc else acc + [ls[j]];
        SanitizeFrom(ls, j + 1, more);
        assert acc + ([ls[j]] + KeptLines(ls, j + 1)) == acc + [ls[j]] + KeptLines(ls, j + 1);
      }
    }
  }

  /** On any listing the loop keeps exactly the lines that their modes say, and raises the
      IndexError exactly when the listing ends in or right after a notice. */
  lemma SanitizeByModes(ls: seq<string>)
    ensures Sanitize(ls, 0, []) == if Unended(ls) then None else Some(KeptLines(ls, 0))
  {
    hide Sanitize, Unended, KeptLines;
    SanitizeFrom(ls, 0, []);
    assert [] + KeptLines(ls, 0) == KeptLines(ls, 0);
  }

  // ----- when the loop runs off the end

  /** A notice starts at line `j`, and no line is left after it. */
  predicate LastNotice(ls: seq<string>, j: nat) {
    && j < |ls| && OpensNotice(ModeAt(ls, j), ls[j], j + 1 == |ls|)
    && forall k | j <= k < |ls| - 1 :: ls[k] != ""
  }

  lemma {:induction false} StaysInNotice(ls: seq<string>, j: nat, k: nat)
    requires LastNotice(ls, j) && j < k < |ls|
    ensures ModeAt(ls, k) == InNotice
    decreases k
  {
    hide StartsWith;
    if k > j + 1 {
      StaysInNotice(ls, j, k - 1);
    }
  }

  lemma LastNoticeUnended(ls: seq<string>, j: nat)
    requires LastNotice(ls, j)
    ensures Unended(ls)
  {
    hide StartsWith;
    if j + 1 < |ls| {
      StaysInNotice(ls, j, |ls| - 1);
    }
  }

  /** Inside a notice: where it started. */
  lemma {:induction false} NoticeStart(ls: seq<string>, k: nat) returns (j: nat)
    requires k <= |ls| && ModeAt(ls, k) == InNotice
    ensures j < k && OpensNotice(ModeAt(ls, j), ls[j], j + 1 == |ls|)
    ensures forall i | j <= i < k :: ls[i] != ""
    decreases k
  {
    EmptyStarts();
    hide StartsWith;
    j := k - 1;
    if !OpensNotice(ModeAt(ls, j), ls[j], k == |ls|) {
      j := NoticeStart(ls, k - 1);
    }
  }

  /** The IndexError is raised if and only if a notice starts with no line left after it. */
  lemma IndexErrorIff(ls: seq<string>)
    ensures Sanitize(ls, 0, []) == None <==> exists j: nat :: LastNotice(ls, j)
  {
    SanitizeByModes(ls);
    hide Sanitize, StartsWith, OpensNotice, KeptLines;
    if Unended(ls) {
      var n := |ls|;
      var k := if ModeAt(ls, n) == InNotice then n else n - 1;
      AfterIsAfter(ls);
      var j := NoticeStart(ls, k);
      assert LastNotice(ls, j);
    }
    if j: nat :| LastNotice(ls, j) {
      LastNoticeUnended(ls, j);
    }
  }

  lemma AfterIsAfter(ls: seq<string>)
    ensures ModeAt(ls, |ls|) == AfterNotice ==> |ls| > 0 && ModeAt(ls, |ls| - 1) == InNotice
  {
    hide StartsWith;
  }

  /** A listing without a notice never raises it. */
  lemma NoNoticeNoError(ls: seq<string>)
    requires forall l | l in ls :: !StartsWith(l, NOTICE)
    ensures Sanitize(ls, 0, []).Some?
  {
    hide Sanitize, StartsWith, ModeAt;
    IndexErrorIff(ls);
    forall j: nat ensures !LastNotice(ls, j) {
      if j < |ls| {
        assert ls[j] in ls;
      }
    }
  }

  /** A notice as the whole output, with its final line feed, does raise it. */
  lemma NoticeAloneRaises()
    ensures Sanitize([NOTICE, ""], 0, []) == None
  {
    var ls := [NOTICE, ""];
    assert ModeAt(ls, 0) == Plain && LastNotice(ls, 0);
    IndexErrorIff(ls);
  }

  // ----- what is kept

  /** The kept lines from `i` on are those at `at`, in order and each once. */
  predicate Picks(ls: seq<string>, i: nat, at: seq<nat>)
    requires i <= |ls|
  {
    && |at| == |KeptLines(ls, i)|
    && (forall t | 0 <= t < |at| :: i <= at[t] < |ls| && KeptAt(ls, at[t]) && KeptLines(ls, i)[t] == ls[at[t]])
    && (forall s, t | 0 <= s < t < |at| :: at[s] < at[t])
    && (forall k | i <= k < |ls| && KeptAt(ls, k) :: k in at)
  }

  lemma PicksOne(ls: seq<string>, i: nat, at: seq<nat>)
    requires i < |ls| && KeptAt(ls, i) && Picks(ls, i + 1, at)
    ensures Picks(ls, i, [i] + at)
  {
    hide KeptAt;
    assert KeptLines(ls, i) == [ls[i]] + KeptLines(ls, i + 1);
    hide KeptLines;
    var now := [i] + at;
    forall k | i <= k < |ls| && KeptAt(ls, k) ensures k in now {
      if k == i {
        assert now[0] == i;
      } else {
        assert k in at;
      }
    }
  }

  lemma PicksNone(ls: seq<string>, i: nat, at: seq<nat>)
    requires i < |ls| && !KeptAt(ls, i) && Picks(ls, i + 1, at)
    ensures Picks(ls, i, at)
  {
    hide KeptAt;
    assert KeptLines(ls, i) == KeptLines(ls, i + 1);
    hide KeptLines;
  }

  /** The kept lines are a subsequence of the listing. */
  lemma {:induction false} KeptAreSubsequence(ls: seq<string>, i: nat) returns (at: seq<nat>)
    requires i <= |ls|
    ensures Picks(ls, i, at)
    decreases |ls| - i
  {
    if i == |ls| {
      at := [];
    } else {
      hide Picks, KeptAt;
      at := KeptAreSubsequence(ls, i + 1);
      if KeptAt(ls, i) {
        PicksOne(ls, i, at);
        at := [i] + at;
      } else {
        PicksNone(ls, i, at);
      }
    }
  }

  /** No note is kept. */
  lemma NoNoteKept(ls: seq<string>)
    requires Sanitize(ls, 0, []).Some?
    ensures forall l | l in Sanitize(ls, 0, []).value :: !StartsWith(l, NOTE)
  {
    SanitizeByModes(ls);
    hide Sanitize, KeptLines, ModeAt, StartsWith;
    var at := KeptAreSubsequence(ls, 0);
    forall l | l in KeptLines(ls, 0) ensures !StartsWith(l, NOTE) {
      var t :| 0 <= t < |at| && KeptLines(ls, 0)[t] == l;
      assert KeptAt(ls, at[t]);
    }
  }

  /** Empty lines are not all stripped: one is kept exactly when it ends a warning or is the
      line after a notice. */
  lemma EmptyLineKeptIff(ls: seq<string>)
    requires Sanitize(ls, 0, []).Some?
    ensures "" in Sanitize(ls, 0, []).value <==>
            exists k :: 0 <= k < |ls| && ls[k] == "" && (ModeAt(ls, k) == InWarning || ModeAt(ls, k) == AfterNotice)
  {
    SanitizeByModes(ls);
    EmptyStarts();
    hide Sanitize, KeptLines, ModeAt, StartsWith;
    var at := KeptAreSubsequence(ls, 0);
    if "" in KeptLines(ls, 0) {
      var t :| 0 <= t < |at| && KeptLines(ls, 0)[t] == "";
      assert KeptAt(ls, at[t]);
    }
    if k: int :| 0 <= k < |ls| && ls[k] == "" && (ModeAt(ls, k) == InWarning || ModeAt(ls, k) == AfterNotice) {
      assert KeptAt(ls, k);
      var t :| 0 <= t < |at| && at[t] == k;
      assert KeptLines(ls, 0)[t] == "";
    }
  }

  /** A warning of one line leaves its empty line behind. */
  lemma WarningLeavesEmptyLine()
    ensures Sanitize([WARNING, "", "Array: A"], 0, []) == Some(["", "Array: A"])
  {
    var ls := [WARNING, "", "Array: A"];
    EmptyStarts();
    assert WarningEnd(ls, 0) == 1 && Skip(ls, 0) == 1;
    assert ls[2][0] == 'A';
    assert !StartsWith(ls[2], WARNING) && !StartsWith(ls[2], NOTICE) && !StartsWith(ls[2], NOTE);
    assert [""] + [ls[2]] == ["", "Array: A"];
    assert Sanitize(ls, 3, ["", "Array: A"]) == Some(["", "Array: A"]);
    assert Skip(ls, 2) == 2 && Sanitize(ls, 2, [""]) == Sanitize(ls, 3, [""] + [ls[2]]);
    assert [] + [ls[1]] == [""];
    assert Sanitize(ls, 0, []) == Sanitize(ls, 2, [] + [ls[1]]);
  }
}
