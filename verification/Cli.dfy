/**
  The command line of `check-duplicate-files <root directory path> [remove]`:
  without a root it fails with the usage message; otherwise it indexes the
  tree, prints the report, and in remove mode asks for confirmation before
  moving the duplicates. The walk's visits, the checksum function and the
  line typed at the prompt are parameters.
 */
module Cli {
  import opened Wrappers
  import opened Timestamp
  import opened ReportFormat
  import opened PathSort
  import opened DuplicateIndex
  import Paths

  const UsageMessage: string := "usage: check-duplicate-files <root directory path> [remove]"

  const RemoveArgument: string := "remove"

  /** The only answer that confirms the move: a capital Y and the newline that ends the line. */
  const Confirmation: string := "Y\n"

  /**
    Remove mode: a second argument, and it is exactly "remove". Remove mode
    always comes with a root directory, so it never meets the usage error.
   */
  predicate IsRemoveMode(args: seq<string>): (r: bool)
    ensures r ==> |args| > 1
    ensures |args| <= 2 ==> !r
  {
    |args| > 2 && args[2] == RemoveArgument
  }

  /** Confirmation is exactly two characters: 'Y' and the newline that ends the line read. */
  predicate IsConfirmed(answer: string): (r: bool)
    ensures r <==> |answer| == 2 && answer[0] == 'Y' && answer[1] == '\n'
  {
    answer == Confirmation
  }

  /** The comparisons are exact: no other spelling, case or trailing text is accepted. */
  lemma ExactMatches()
    ensures IsRemoveMode(["check-duplicate-files", "photos", "remove"])
    ensures IsRemoveMode(["check-duplicate-files", "photos", "remove", "extra"])
    ensures !IsRemoveMode(["check-duplicate-files", "photos", "Remove"])
    ensures !IsRemoveMode(["check-duplicate-files", "photos", "remove "])
    ensures !IsRemoveMode(["check-duplicate-files", "remove"])
    ensures IsConfirmed("Y\n")
    ensures !IsConfirmed("Y") && !IsConfirmed("y\n") && !IsConfirmed("Yes\n") && !IsConfirmed("Y\r\n")
  {
  }

  /** The text of the question before the count, and after it. */
  const PromptHead: string := "\n\nAre you sure you want to move "
  const PromptTail: string := " duplicates to the directory \"REMOVED\" [Y/N] "

  /**
    The question asked in remove mode: the count `outputMap` returned, as
    `%d` writes it, between the fixed head and tail.
   */
  function Prompt(duplicates: nat): (r: string)
    ensures |r| > |PromptHead| + |PromptTail|
    ensures r[..|PromptHead|] == PromptHead && r[|r| - |PromptTail|..] == PromptTail
    ensures IsCanonicalDecimal(r[|PromptHead|..|r| - |PromptTail|])
    ensures Number(r[|PromptHead|..|r| - |PromptTail|]) == duplicates
  {
    var count := Decimal(duplicates);
    var r := PromptHead + count + PromptTail;
    assert r[..|PromptHead|] == PromptHead;
    assert r[|r| - |PromptTail|..] == PromptTail;
    assert r[|PromptHead|..|r| - |PromptTail|] == count;
    r
  }

  /** The index the walk builds from an empty map. */
  function Discovered(visits: seq<Visit>, checksum: Bytes -> Checksum): Index {
    IndexOf(map[], visits, checksum)
  }

  /** The count `outputMap` returns for `files`, which is the same for every iteration order. */
  ghost predicate IsCount(key: TimeKey, files: Index, duplicates: nat) {
    forall o :: EnumeratesKeys(o, files) ==> duplicates == CountOf(files, o, key)
  }

  /** The text `outputMap` prints for `files` under some iteration order. */
  ghost predicate IsReport(key: TimeKey, files: Index, report: seq<string>) {
    exists o :: EnumeratesKeys(o, files) && report == Printed(ReportOf(files, o, key))
  }

  /** The renames `moveDuplicates` performs after `outputMap`, under some iteration order, each file going to `target` of its path. */
  ghost predicate IsMoveList(key: TimeKey, files: Index, target: string -> string, moves: seq<Move>) {
    exists o :: EnumeratesKeys(o, files)
      && (SortedIndexCovers(files, o, key);
          moves == MovesOf(SortedIndex(files, key), o, target))
  }

  /**
    What a run produces: the report text, the number `outputMap` returned,
    the prompt if one was shown, and the renames performed.
   */
  datatype RunOutcome = RunOutcome(report: seq<string>, duplicates: nat, prompt: Option<string>, moves: seq<Move>)

  /**
    `main`. Fails with the usage message exactly when no root is given.
    Otherwise: the walk error is ignored; the report is that of some order of
    the map and the count is the same for every order; the prompt is shown
    only in remove mode; files are moved only in remove mode and after the
    answer "Y\n", and then at least as many are moved as were counted.
   */
  method Run(args: seq<string>, visits: seq<Visit>, checksum: Bytes -> Checksum, answer: string)
    returns (r: Result<RunOutcome, string>)
    ensures r.Err? <==> |args| <= 1
    ensures r.Err? ==> r.error == UsageMessage
    ensures r.Ok? ==>
      && IsCount(ConvertPathToTime, Discovered(visits, checksum), r.value.duplicates)
      && IsReport(ConvertPathToTime, Discovered(visits, checksum), r.value.report)
      && r.value.prompt == (if IsRemoveMode(args) then Some(Prompt(r.value.duplicates)) else None)
    ensures r.Ok? && !(IsRemoveMode(args) && IsConfirmed(answer)) ==> r.value.moves == []
    ensures r.Ok? && IsRemoveMode(args) && IsConfirmed(answer) ==>
      && IsMoveList(ConvertPathToTime, Discovered(visits, checksum), MoveTarget(Paths.Join(args[1], RemovedName)), r.value.moves)
      && |r.value.moves| >= r.value.duplicates
  {
    if |args| <= 1 {
      return Err(UsageMessage);
    }
    var index, duplicates, report := Report(visits, checksum);
    var outcome := Confirm(index, args[1], IsRemoveMode(args), answer, Discovered(visits, checksum), duplicates, report);
    return Ok(outcome);
  }

  /**
    The remove-mode tail of `main`: the prompt is printed only in remove
    mode, and `moveDuplicates` runs only when the answer read back is "Y\n".
   */
  method Confirm(index: FileIndex, root: string, remove: bool, answer: string, ghost files: Index, duplicates: nat, report: seq<string>)
    returns (r: RunOutcome)
    requires index.files == SortedIndex(files, ConvertPathToTime)
    requires IsCount(ConvertPathToTime, files, duplicates)
    ensures r.report == report && r.duplicates == duplicates
    ensures r.prompt == (if remove then Some(Prompt(duplicates)) else None)
    ensures !(remove && IsConfirmed(answer)) ==> r.moves == []
    ensures remove && IsConfirmed(answer) ==>
      && IsMoveList(ConvertPathToTime, files, MoveTarget(Paths.Join(root, RemovedName)), r.moves)
      && |r.moves| >= duplicates
  {
    var prompt: Option<string> := if remove then Some(Prompt(duplicates)) else None;
    var moves := Remove(index, root, remove && IsConfirmed(answer), files, duplicates);
    return RunOutcome(report, duplicates, prompt, moves);
  }

  /** The walk from an empty map followed by `outputMap`, over orders picked as Go's map iteration may pick them. */
  method Report(visits: seq<Visit>, checksum: Bytes -> Checksum) returns (index: FileIndex, duplicates: nat, report: seq<string>)
    ensures fresh(index)
    ensures index.files == SortedIndex(Discovered(visits, checksum), ConvertPathToTime)
    ensures IsCount(ConvertPathToTime, Discovered(visits, checksum), duplicates)
    ensures IsReport(ConvertPathToTime, Discovered(visits, checksum), report)
  {
    index := new FileIndex(checksum);
    var _ := index.Walk(visits);
    ghost var files := index.files;
    var order := MapOrder(index.files);
    duplicates, report := index.OutputMap(order, ConvertPathToTime);
    forall o | EnumeratesKeys(o, files)
      ensures duplicates == CountOf(files, o, ConvertPathToTime)
    {
      CountIndependentOfOrder(files, order, o, ConvertPathToTime);
    }
    assert IsReport(ConvertPathToTime, files, report) by {
      assert EnumeratesKeys(order, files) && report == Printed(ReportOf(files, order, ConvertPathToTime));
    }
  }

  /**
    `moveDuplicates(root)`, if `confirmed`, on the map `outputMap` left
    behind after it returned `duplicates` for `files`.
   */
  method Remove(index: FileIndex, root: string, confirmed: bool, ghost files: Index, ghost duplicates: nat) returns (moves: seq<Move>)
    requires index.files == SortedIndex(files, ConvertPathToTime)
    requires IsCount(ConvertPathToTime, files, duplicates)
    ensures !confirmed ==> moves == []
    ensures confirmed ==> IsMoveList(ConvertPathToTime, files, MoveTarget(Paths.Join(root, RemovedName)), moves) && |moves| >= duplicates
  {
    if !confirmed {
      return [];
    }
    var order := MapOrder(index.files);
    moves := index.MoveDuplicates(root, order);
    MovesCoverCount(files, order, ConvertPathToTime, MoveTarget(Paths.Join(root, RemovedName)), moves, duplicates);
  }

  /**
    When the visits the walk gets through have distinct paths, remove mode never moves the first
    file of a group: after `outputMap` that is the earliest file of every
    group it reported.
   */
  lemma FirstFileStaysInRun(visits: seq<Visit>, checksum: Bytes -> Checksum, target: string -> string, moves: seq<Move>, d: Checksum, m: Move)
    requires DistinctPaths(Walked(visits))
    requires IsMoveList(ConvertPathToTime, Discovered(visits, checksum), target, moves)
    requires d in SortedIndex(Discovered(visits, checksum), ConvertPathToTime)
    requires SortedIndex(Discovered(visits, checksum), ConvertPathToTime)[d] != []
    requires m in moves
    ensures m.source != SortedIndex(Discovered(visits, checksum), ConvertPathToTime)[d][0]
  {
    var files := Discovered(visits, checksum);
    var sorted := SortedIndex(files, ConvertPathToTime);
    var o :| EnumeratesKeys(o, files)
      && (SortedIndexCovers(files, o, ConvertPathToTime);
          moves == MovesOf(sorted, o, target));
    SortedIndexCovers(files, o, ConvertPathToTime);
    DiscoveredUnique(visits, checksum);
    SortedIndexKeepsUnique(files, ConvertPathToTime);
    FirstFileStays(sorted, o, target, d, m);
  }

  /** The renames after `outputMap` are those of some iteration order, and there are at least as many as it counted. */
  lemma MovesCoverCount(files: Index, order: seq<Checksum>, key: TimeKey, target: string -> string, moves: seq<Move>, duplicates: nat)
    requires EnumeratesKeys(order, SortedIndex(files, key))
    requires moves == MovesOf(SortedIndex(files, key), order, target)
    requires IsCount(key, files, duplicates)
    ensures IsMoveList(key, files, target, moves)
    ensures |moves| >= duplicates
  {
    EnumeratesSortedIndex(order, files, key);
    MovesMatchCount(files, order, key, target);
    assert IsMoveList(key, files, target, moves) by {
      SortedIndexCovers(files, order, key);
      assert EnumeratesKeys(order, files);
    }
  }
}
