/**
 * The batch conversion of `LogicController.execute` and `squish`, stated as
 * functions over an abstract folder listing. Each entry carries what the
 * platform would report for it (directory or not, the outcome of decoding,
 * the outcome of writing); a sequence of flags says when the form asked to
 * cancel. The controller's methods are proved to produce exactly these traces.
 */
module Batch {
  import opened Strings
  import opened Naming

  datatype Image = Image(width: int, height: int)

  /** What `ImageIO.read` gave: an `IOException`, `null`, or a decoded image. */
  datatype Decode = ReadFails | NullImage | Decoded(image: Image)

  /**
   * One element of `listFiles()`. `writeSucceeds` says that `ImageIO.write` returns
   * for its output instead of throwing; the boolean that `write` returns is not looked at.
   */
  datatype Entry = Entry(isDirectory: bool, name: string, decode: Decode, writeSucceeds: bool)

  /** The calls the controller makes on the form. */
  datatype UIEvent =
    | UpdateProgressBar(percent: int)
    | ToggleUI
    | ErrorCorruptImage(fileName: string)
    | ErrorWriting
    | CancelPopup(converted: int)
    | CompletePopup(converted: int)

  /**
   * The file-system effects: decoding a file, renaming the original, writing the output.
   * `succeeded` on a write means that `ImageIO.write` did not throw.
   */
  datatype FileAction =
    | Read(path: string)
    | RenameTo(from: string, to: string)
    | Write(path: string, width: int, height: int, format: string, succeeded: bool)

  /** The controller's folders and behaviour settings, fixed for one run. */
  datatype Config = Config(sourcePath: string, resultPath: string, settings: Settings)

  /** The effect of one entry on the count, on `canceled`, on the form and on the file system. */
  datatype Step = Step(converted: bool, writeFailed: bool, events: seq<UIEvent>, actions: seq<FileAction>)

  const Skip := Step(false, false, [], [])

  /** Where `squish` writes: the renamed name when renaming the converted file, else the same name. */
  function OutputPath(cfg: Config, name: string): string
    requires '.' in name
  {
    if cfg.settings.shouldRename && cfg.settings.renameNewFile
    then ModifyFilePath(cfg.settings, cfg.resultPath, name)
    else JoinPath(cfg.resultPath, name)
  }

  /** `squish` for an image of the given size whose write ends as `writeOk` says. */
  function SquishStep(cfg: Config, name: string, image: Image, writeOk: bool): Step
    requires '.' in name
  {
    var s := cfg.settings;
    var renameOriginal :=
      if s.shouldRename && !s.renameNewFile
      then [RenameTo(JoinPath(cfg.sourcePath, name), ModifyFilePath(s, cfg.sourcePath, name))]
      else [];
    var write := Write(OutputPath(cfg, name), image.height, image.height, Extension(name), writeOk);
    Step(writeOk, !writeOk, if writeOk then [] else [ErrorWriting], renameOriginal + [write])
  }

  /** The body of the `execute` loop for one entry, before the progress update. */
  function Handle(cfg: Config, e: Entry): Step {
    var path := JoinPath(cfg.sourcePath, e.name);
    if e.isDirectory || !IsImage(path) then Skip
    else match e.decode
      case ReadFails => Step(false, false, [], [Read(path)])
      case NullImage => Step(false, false, [ErrorCorruptImage(e.name)], [Read(path)])
      case Decoded(image) =>
        if ShouldResize(image.width, image.height) then
          IsImageOfJoinPath(cfg.sourcePath, e.name);
          ImageHasDot(e.name);
          var squished := SquishStep(cfg, e.name, image, e.writeSucceeds);
          squished.(actions := [Read(path)] + squished.actions)
        else Step(false, false, [], [Read(path)])
  }

  /** What each entry of the listing does, in listing order. */
  function Steps(cfg: Config, entries: seq<Entry>): (steps: seq<Step>)
    ensures |steps| == |entries|
  {
    if |entries| == 0 then []
    else Steps(cfg, entries[..|entries| - 1]) + [Handle(cfg, entries[|entries| - 1])]
  }

  lemma {:induction false} StepsAt(cfg: Config, entries: seq<Entry>, i: nat)
    requires i < |entries|
    ensures Steps(cfg, entries)[i] == Handle(cfg, entries[i])
  {
    if i < |entries| - 1 {
      StepsAt(cfg, entries[..|entries| - 1], i);
    }
  }

  /** The form asked to cancel just before the loop test of iteration `i`. */
  predicate Requested(cancelRequests: seq<bool>, i: nat) {
    i < |cancelRequests| && cancelRequests[i]
  }

  /** `canceled` at the loop test of iteration `i`, once the loop has got that far. */
  predicate StopAt(steps: seq<Step>, cancelRequests: seq<bool>, i: nat)
    requires i <= |steps|
  {
    Requested(cancelRequests, i) || (0 < i && steps[i - 1].writeFailed)
  }

  /** The first loop test at or after `from` that ends the loop. */
  function ExitFrom(steps: seq<Step>, cancelRequests: seq<bool>, from: nat): (k: nat)
    requires from <= |steps|
    ensures from <= k <= |steps|
    ensures k == |steps| || StopAt(steps, cancelRequests, k)
    ensures forall j :: from <= j < k ==> !StopAt(steps, cancelRequests, j)
    decreases |steps| - from
  {
    if from == |steps| || StopAt(steps, cancelRequests, from) then from
    else ExitFrom(steps, cancelRequests, from + 1)
  }

  /** The number of entries the loop visits. */
  function Exit(steps: seq<Step>, cancelRequests: seq<bool>): nat {
    ExitFrom(steps, cancelRequests, 0)
  }

  /** Count, form calls and file actions after the first `k` iterations. */
  datatype Visited = Visited(converted: int, events: seq<UIEvent>, actions: seq<FileAction>)

  function Visit(steps: seq<Step>, k: nat): Visited
    requires k <= |steps|
  {
    if k == 0 then Visited(0, [], [])
    else
      var before := Visit(steps, k - 1);
      var step := steps[k - 1];
      Visited(
        before.converted + (if step.converted then 1 else 0),
        before.events + step.events + [UpdateProgressBar(k * 100 / |steps|)],
        before.actions + step.actions)
  }

  /** One more iteration adds one step's count, form calls and file actions, then the progress. */
  lemma VisitNext(steps: seq<Step>, k: nat)
    requires k < |steps|
    ensures Visit(steps, k + 1) == Visited(
      Visit(steps, k).converted + (if steps[k].converted then 1 else 0),
      Visit(steps, k).events + steps[k].events + [UpdateProgressBar((k + 1) * 100 / |steps|)],
      Visit(steps, k).actions + steps[k].actions)
  {
  }

  /**
   * The loop's bookkeeping: what has been recorded before the run, then the visited
   * prefix, then one more step and its progress update, is the next visited prefix.
   */
  lemma VisitExtend(steps: seq<Step>, k: nat, events0: seq<UIEvent>, actions0: seq<FileAction>)
    requires k < |steps|
    ensures Visit(steps, k + 1).converted == Visit(steps, k).converted + (if steps[k].converted then 1 else 0)
    ensures events0 + Visit(steps, k).events + steps[k].events + [UpdateProgressBar((k + 1) * 100 / |steps|)] ==
      events0 + Visit(steps, k + 1).events
    ensures actions0 + Visit(steps, k).actions + steps[k].actions == actions0 + Visit(steps, k + 1).actions
  {
    VisitNext(steps, k);
    AppendAssoc(actions0, Visit(steps, k).actions, steps[k].actions);
    AppendAssoc3(events0, Visit(steps, k).events, steps[k].events, [UpdateProgressBar((k + 1) * 100 / |steps|)]);
  }

  lemma AppendAssoc<T>(a: seq<T>, b: seq<T>, c: seq<T>)
    ensures a + b + c == a + (b + c)
  {
  }

  lemma AppendAssoc3<T>(a: seq<T>, b: seq<T>, c: seq<T>, d: seq<T>)
    ensures a + b + c + d == a + (b + c + d)
  {
  }

  lemma RunEventsShape(before: seq<UIEvent>, visited: seq<UIEvent>, popup: UIEvent)
    ensures before + [UpdateProgressBar(0)] + [ToggleUI] + visited + [popup] + [ToggleUI] ==
      before + ([UpdateProgressBar(0), ToggleUI] + visited + [popup, ToggleUI])
  {
  }

  /** The popup that closes a run that stopped at loop test `k`. */
  function Popup(steps: seq<Step>, cancelRequests: seq<bool>, k: nat): UIEvent
    requires k <= |steps|
  {
    if StopAt(steps, cancelRequests, k) then CancelPopup(Visit(steps, k).converted)
    else CompletePopup(Visit(steps, k).converted)
  }

  /** Every call `execute` makes on the form, from the first progress reset to the last toggle. */
  function RunEvents(steps: seq<Step>, cancelRequests: seq<bool>): seq<UIEvent> {
    var k := Exit(steps, cancelRequests);
    [UpdateProgressBar(0), ToggleUI] + Visit(steps, k).events + [Popup(steps, cancelRequests, k), ToggleUI]
  }

  // ---------------------------------------------------------------------------
  // One entry

  /** An entry that `execute` converts: a wide image file whose write succeeds. */
  predicate Converts(e: Entry) {
    !e.isDirectory && IsImage(e.name) && e.decode.Decoded? &&
    e.decode.image.width > e.decode.image.height && e.writeSucceeds
  }

  /** Directories and non-image files are neither read nor reported nor counted. */
  lemma SkippedEntriesUntouched(cfg: Config, e: Entry)
    requires e.isDirectory || !IsImage(e.name)
    ensures Handle(cfg, e) == Skip
  {
    IsImageOfJoinPath(cfg.sourcePath, e.name);
  }

  /**
   * Exactly the wide images whose write succeeds are counted, and exactly the wide
   * images whose write fails cancel the run; a read error or a null image does neither.
   */
  lemma HandleCounts(cfg: Config, e: Entry)
    ensures Handle(cfg, e).converted <==> Converts(e)
    ensures Handle(cfg, e).writeFailed <==>
      !e.isDirectory && IsImage(e.name) && e.decode.Decoded? &&
      e.decode.image.width > e.decode.image.height && !e.writeSucceeds
    ensures e.decode.ReadFails? || e.decode.NullImage? ==>
      !Handle(cfg, e).converted && !Handle(cfg, e).writeFailed
  {
    IsImageOfJoinPath(cfg.sourcePath, e.name);
  }

  /**
   * Only a wide image file gets an output: a square or tall image, a read error and a
   * `null` decode are neither written nor renamed.
   */
  lemma HandleWritesOnlyWide(cfg: Config, e: Entry)
    ensures (exists a :: a in Handle(cfg, e).actions && (a.Write? || a.RenameTo?)) <==>
      !e.isDirectory && IsImage(e.name) && e.decode.Decoded? &&
      e.decode.image.width > e.decode.image.height
  {
    IsImageOfJoinPath(cfg.sourcePath, e.name);
    var path := JoinPath(cfg.sourcePath, e.name);
    var step := Handle(cfg, e);
    if !e.isDirectory && IsImage(e.name) && e.decode.Decoded? &&
       e.decode.image.width > e.decode.image.height {
      ImageHasDot(e.name);
      var squished := SquishStep(cfg, e.name, e.decode.image, e.writeSucceeds);
      assert step.actions == [Read(path)] + squished.actions;
      assert step.actions[|step.actions| - 1].Write?;
    }
  }

  /** A file that decodes to `null` is reported as corrupt by name, once. */
  lemma NullImageReported(cfg: Config, e: Entry)
    requires !e.isDirectory && IsImage(e.name) && e.decode.NullImage?
    ensures Handle(cfg, e).events == [ErrorCorruptImage(e.name)]
  {
    IsImageOfJoinPath(cfg.sourcePath, e.name);
  }

  /**
   * What `squish` writes, for any rename text: a square output as tall as the source,
   * in the source's format, at `resultPath + "/"` and the renamed name exactly when the
   * converted file is to be renamed, else the original name.
   */
  lemma SquishWrite(cfg: Config, name: string, image: Image, writeOk: bool)
    requires '.' in name
    ensures var step := SquishStep(cfg, name, image, writeOk);
      var w := step.actions[|step.actions| - 1];
      w.Write? && w.width == w.height == image.height && w.format == Extension(name) &&
      w.succeeded == writeOk &&
      w.path == JoinPath(cfg.resultPath, if cfg.settings.shouldRename && cfg.settings.renameNewFile
                                         then GetRename(cfg.settings, name) else name)
    ensures SquishStep(cfg, name, image, writeOk).converted == writeOk
    ensures SquishStep(cfg, name, image, writeOk).writeFailed == !writeOk
  {
  }

  /** With no '/' in the name or the text, the output's file name is that name, and it keeps the format. */
  lemma SquishOutput(cfg: Config, name: string, image: Image, writeOk: bool)
    requires '.' in name && '/' !in name && '/' !in cfg.settings.addTextToFileName
    ensures var step := SquishStep(cfg, name, image, writeOk);
      var w := step.actions[|step.actions| - 1];
      w.Write? && w.width == w.height == image.height && w.format == Extension(name) &&
      w.succeeded == writeOk &&
      w.path == JoinPath(cfg.resultPath, if cfg.settings.shouldRename && cfg.settings.renameNewFile
                                         then GetRename(cfg.settings, name) else name) &&
      StartsWith(w.path, cfg.resultPath + "/") &&
      NameOf(w.path) == (if cfg.settings.shouldRename && cfg.settings.renameNewFile
                         then GetRename(cfg.settings, name) else name) &&
      Extension(NameOf(w.path)) == w.format
    ensures SquishStep(cfg, name, image, writeOk).converted == writeOk
    ensures SquishStep(cfg, name, image, writeOk).writeFailed == !writeOk
  {
    var s := cfg.settings;
    var path := OutputPath(cfg, name);
    if s.shouldRename && s.renameNewFile {
      ModifyFilePathName(s, cfg.resultPath, name);
      RenameKeepsExtension(s, name);
      assert path == (cfg.resultPath + "/") + GetRename(s, name);
    } else {
      NameOfJoinPath(cfg.resultPath, name);
      assert path == (cfg.resultPath + "/") + name;
    }
  }

  /** The original is renamed in the source folder only when renaming the original is chosen. */
  lemma SquishRenamesOriginal(cfg: Config, name: string, image: Image, writeOk: bool)
    requires '.' in name
    ensures var step := SquishStep(cfg, name, image, writeOk);
      (exists a :: a in step.actions && a.RenameTo?) <==>
      cfg.settings.shouldRename && !cfg.settings.renameNewFile
    ensures var step := SquishStep(cfg, name, image, writeOk);
      forall a :: a in step.actions && a.RenameTo? ==>
        a == RenameTo(JoinPath(cfg.sourcePath, name), ModifyFilePath(cfg.settings, cfg.sourcePath, name))
  {
    var step := SquishStep(cfg, name, image, writeOk);
    if cfg.settings.shouldRename && !cfg.settings.renameNewFile {
      assert step.actions[0].RenameTo?;
    }
  }


  /** No step reports progress itself, writes only square outputs and reads only image files. */
  predicate WellFormed(step: Step) {
    Quiet(step.events) &&
    (forall a :: a in step.actions && a.Write? ==> a.width == a.height) &&
    (forall a :: a in step.actions && a.Read? ==> IsImage(a.path))
  }

  lemma SquishWellFormed(cfg: Config, name: string, image: Image, writeOk: bool)
    requires '.' in name
    ensures var step := SquishStep(cfg, name, image, writeOk);
      Quiet(step.events) && (forall a :: a in step.actions ==> !a.Read?) &&
      (forall a :: a in step.actions && a.Write? ==> a.width == a.height)
  {
  }

  lemma HandleWellFormed(cfg: Config, e: Entry)
    ensures WellFormed(Handle(cfg, e))
  {
    var path := JoinPath(cfg.sourcePath, e.name);
    var step := Handle(cfg, e);
    if e.isDirectory || !IsImage(path) {
      assert step == Skip;
    } else if e.decode.Decoded? && ShouldResize(e.decode.image.width, e.decode.image.height) {
      IsImageOfJoinPath(cfg.sourcePath, e.name);
      ImageHasDot(e.name);
      var squished := SquishStep(cfg, e.name, e.decode.image, e.writeSucceeds);
      SquishWellFormed(cfg, e.name, e.decode.image, e.writeSucceeds);
      assert step == squished.(actions := [Read(path)] + squished.actions);
    } else {
      assert step.actions == [Read(path)];
      assert |step.events| <= 1 && forall ev :: ev in step.events ==> ev.ErrorCorruptImage?;
    }
  }

  lemma PercentFull(total: nat)
    requires 0 < total
    ensures total * 100 / total == 100
  {
  }

  lemma StepsWellFormed(cfg: Config, entries: seq<Entry>)
    ensures forall i :: 0 <= i < |entries| ==> WellFormed(Steps(cfg, entries)[i])
  {
    forall i | 0 <= i < |entries| ensures WellFormed(Steps(cfg, entries)[i]) {
      StepsAt(cfg, entries, i);
      HandleWellFormed(cfg, entries[i]);
    }
  }

  // ---------------------------------------------------------------------------
  // Where the loop stops

  /** The loop stops at the first loop test that sees `canceled`. */
  lemma ExitIsFirstStop(steps: seq<Step>, cancelRequests: seq<bool>, k: nat)
    requires k <= |steps|
    requires forall j :: 0 <= j < k ==> !StopAt(steps, cancelRequests, j)
    requires k == |steps| || StopAt(steps, cancelRequests, k)
    ensures Exit(steps, cancelRequests) == k
  {
  }

  /**
   * A cancel request that arrives after `k` files were examined (and before any other
   * stop) leaves exactly `k` files examined and ends with the cancel popup.
   */
  lemma CancelStopsAfterCurrentFile(steps: seq<Step>, cancelRequests: seq<bool>, k: nat)
    requires k <= |steps|
    requires Requested(cancelRequests, k)
    requires forall j :: 0 <= j < k ==> !StopAt(steps, cancelRequests, j)
    ensures Exit(steps, cancelRequests) == k
    ensures var events := RunEvents(steps, cancelRequests);
      events[|events| - 2] == CancelPopup(Visit(steps, k).converted)
  {
    ExitIsFirstStop(steps, cancelRequests, k);
  }

  /** A failed write halts the loop right after the file it happened on. */
  lemma WriteFailureHalts(steps: seq<Step>, cancelRequests: seq<bool>, j: nat)
    requires j < Exit(steps, cancelRequests)
    requires steps[j].writeFailed
    ensures Exit(steps, cancelRequests) == j + 1
    ensures var events := RunEvents(steps, cancelRequests);
      events[|events| - 2].CancelPopup?
  {
    assert StopAt(steps, cancelRequests, j + 1);
    ExitIsFirstStop(steps, cancelRequests, j + 1);
  }

  /** Without cancel requests and write failures every entry is visited and the run completes. */
  lemma UninterruptedRunCompletes(steps: seq<Step>, cancelRequests: seq<bool>)
    requires forall i :: 0 <= i < |cancelRequests| ==> !cancelRequests[i]
    requires forall i :: 0 <= i < |steps| ==> !steps[i].writeFailed
    ensures Exit(steps, cancelRequests) == |steps|
    ensures var events := RunEvents(steps, cancelRequests);
      events[|events| - 2] == CompletePopup(Visit(steps, |steps|).converted)
  {
    forall j | 0 <= j <= |steps| ensures !StopAt(steps, cancelRequests, j) {
      if 0 < j {
        assert !steps[j - 1].writeFailed;
      }
    }
    ExitIsFirstStop(steps, cancelRequests, |steps|);
  }

  // ---------------------------------------------------------------------------
  // The count and the file actions

  /** The count after `k` iterations is the number of converting steps among the first `k`. */
  function CountConverted(steps: seq<Step>): nat {
    if |steps| == 0 then 0
    else CountConverted(steps[..|steps| - 1]) + (if steps[|steps| - 1].converted then 1 else 0)
  }

  lemma {:induction false} VisitCount(steps: seq<Step>, k: nat)
    requires k <= |steps|
    ensures Visit(steps, k).converted == CountConverted(steps[..k])
    ensures 0 <= Visit(steps, k).converted <= k
  {
    if k > 0 {
      VisitCount(steps, k - 1);
      assert steps[..k][..k - 1] == steps[..k - 1];
    }
  }

  /** Over a run, every output written is square and every file read is an image file. */
  lemma {:induction false} VisitActionsShape(steps: seq<Step>, k: nat)
    requires k <= |steps|
    requires forall i :: 0 <= i < |steps| ==> WellFormed(steps[i])
    ensures forall a :: a in Visit(steps, k).actions && a.Write? ==> a.width == a.height
    ensures forall a :: a in Visit(steps, k).actions && a.Read? ==> IsImage(a.path)
  {
    if k > 0 {
      VisitActionsShape(steps, k - 1);
      assert WellFormed(steps[k - 1]);
      assert Visit(steps, k).actions == Visit(steps, k - 1).actions + steps[k - 1].actions;
    }
  }

  // ---------------------------------------------------------------------------
  // Progress

  /** The values passed to `updateProgressBar`, in order. */
  function ProgressOf(events: seq<UIEvent>): seq<int> {
    if |events| == 0 then []
    else
      var last := events[|events| - 1];
      ProgressOf(events[..|events| - 1]) + (if last.UpdateProgressBar? then [last.percent] else [])
  }

  /** No progress update among `events`. */
  predicate Quiet(events: seq<UIEvent>) {
    forall i :: 0 <= i < |events| ==> !events[i].UpdateProgressBar?
  }

  lemma {:induction false} ProgressOfQuietSuffix(a: seq<UIEvent>, b: seq<UIEvent>)
    requires Quiet(b)
    ensures ProgressOf(a + b) == ProgressOf(a)
  {
    if |b| > 0 {
      assert (a + b)[..|a + b| - 1] == a + b[..|b| - 1];
      ProgressOfQuietSuffix(a, b[..|b| - 1]);
      assert !b[|b| - 1].UpdateProgressBar?;
    } else {
      assert a + b == a;
    }
  }

  lemma ProgressOfPush(a: seq<UIEvent>, percent: int)
    ensures ProgressOf(a + [UpdateProgressBar(percent)]) == ProgressOf(a) + [percent]
  {
    assert (a + [UpdateProgressBar(percent)])[..|a|] == a;
  }

  /** `(fileIndex + 1) * 100 / totalFiles` for the first `k` files: truncating, not rounding. */
  function ProgressValues(k: nat, total: nat): seq<int>
    requires k <= total
  {
    if k == 0 then [] else ProgressValues(k - 1, total) + [k * 100 / total]
  }

  lemma {:induction false} ProgressValuesAt(k: nat, total: nat)
    requires k <= total
    ensures |ProgressValues(k, total)| == k
    ensures forall j :: 0 <= j < k ==> ProgressValues(k, total)[j] == (j + 1) * 100 / total
  {
    if k > 0 {
      ProgressValuesAt(k - 1, total);
    }
  }

  /** The progress reported during the first `k` iterations is one value per file. */
  lemma {:induction false} VisitProgress(steps: seq<Step>, k: nat, prefix: seq<UIEvent>)
    requires k <= |steps|
    requires forall i :: 0 <= i < |steps| ==> WellFormed(steps[i])
    ensures ProgressOf(prefix + Visit(steps, k).events) == ProgressOf(prefix) + ProgressValues(k, |steps|)
  {
    if k == 0 {
      assert prefix + Visit(steps, k).events == prefix;
    } else {
      VisitProgress(steps, k - 1, prefix);
      var before := Visit(steps, k - 1).events;
      var step := steps[k - 1];
      var percent := k * 100 / |steps|;
      assert WellFormed(step);
      assert prefix + Visit(steps, k).events == (prefix + before + step.events) + [UpdateProgressBar(percent)];
      ProgressOfPush(prefix + before + step.events, percent);
      ProgressOfQuietSuffix(prefix + before, step.events);
    }
  }

  lemma DivMonotone(x: nat, y: nat, n: nat)
    requires x <= y && 0 < n
    ensures x / n <= y / n
  {
    var q, r := x / n, y / n;
    assert n * q <= x;
    assert y < n * r + n;
    assert q > r ==> n * q >= n * (r + 1);
  }

  /** The percentage after `done` of `total` files lies in 0..100, grows with `done`, and is 100 at the end. */
  lemma PercentFacts(done: nat, later: nat, total: nat)
    requires done <= later <= total && 0 < total
    ensures 0 <= done * 100 / total <= later * 100 / total <= 100
    ensures total * 100 / total == 100
  {
    DivMonotone(done * 100, later * 100, total);
    DivMonotone(later * 100, total * 100, total);
    PercentFull(total);
  }

  /** The progress of a whole run: a reset to 0, then one value per visited file. */
  lemma RunProgressValues(steps: seq<Step>, cancelRequests: seq<bool>)
    requires forall i :: 0 <= i < |steps| ==> WellFormed(steps[i])
    ensures ProgressOf(RunEvents(steps, cancelRequests)) ==
      [0] + ProgressValues(Exit(steps, cancelRequests), |steps|)
  {
    var k := Exit(steps, cancelRequests);
    var head: seq<UIEvent> := [UpdateProgressBar(0), ToggleUI];
    var last: seq<UIEvent> := [Popup(steps, cancelRequests, k), ToggleUI];
    RunEventsSplit(steps, cancelRequests);
    ProgressOfQuietSuffix(head + Visit(steps, k).events, last);
    VisitProgress(steps, k, head);
    ProgressOfReset();
  }

  lemma RunEventsSplit(steps: seq<Step>, cancelRequests: seq<bool>)
    ensures var k := Exit(steps, cancelRequests);
      RunEvents(steps, cancelRequests) ==
      ([UpdateProgressBar(0), ToggleUI] + Visit(steps, k).events) + [Popup(steps, cancelRequests, k), ToggleUI]
  {
  }

  lemma ProgressOfReset()
    ensures ProgressOf([UpdateProgressBar(0), ToggleUI]) == [0]
  {
    var head: seq<UIEvent> := [UpdateProgressBar(0), ToggleUI];
    assert head == ([] + [UpdateProgressBar(0)]) + [ToggleUI];
    ProgressOfQuietSuffix([] + [UpdateProgressBar(0)], [ToggleUI]);
    ProgressOfPush([], 0);
  }

  /**
   * Progress over a whole run: it starts at 0, has one value per visited file, never
   * decreases, stays within 0..100, and ends at 100 when every file was visited.
   * A run that is not canceled visits every file.
   */
  lemma RunProgress(cfg: Config, entries: seq<Entry>, cancelRequests: seq<bool>)
    ensures var steps := Steps(cfg, entries);
      var ps := ProgressOf(RunEvents(steps, cancelRequests));
      var k := Exit(steps, cancelRequests);
      |ps| == k + 1 && ps[0] == 0 &&
      (forall i, j :: 0 <= i <= j < |ps| ==> ps[i] <= ps[j]) &&
      (forall i :: 0 <= i < |ps| ==> 0 <= ps[i] <= 100) &&
      (k == |entries| && 0 < k ==> ps[k] == 100)
    ensures var steps := Steps(cfg, entries);
      !StopAt(steps, cancelRequests, Exit(steps, cancelRequests)) ==> Exit(steps, cancelRequests) == |entries|
  {
    var steps := Steps(cfg, entries);
    var k := Exit(steps, cancelRequests);
    var n := |entries|;
    StepsWellFormed(cfg, entries);
    RunProgressValues(steps, cancelRequests);
    ProgressValuesAt(k, n);
    var ps := ProgressOf(RunEvents(steps, cancelRequests));
    assert forall i :: 0 < i <= k ==> ps[i] == i * 100 / n;
    forall i, j | 0 <= i <= j < |ps| ensures ps[i] <= ps[j] && 0 <= ps[i] && ps[j] <= 100 {
      if 0 < j {
        PercentFacts(i, j, n);
      }
    }
    if k == n && 0 < k {
      PercentFacts(n, n, n);
    }
  }
}
