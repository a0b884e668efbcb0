/**
 * `LogicController`: the state the controller keeps between the form's calls and
 * the methods that change it. The form's callbacks are recorded in `events` and
 * the file-system effects in `actions`, oldest first; what the folder listing,
 * the decoder and the writer report comes in as `Entry` values.
 */
module Controller {
  import opened Strings
  import opened Naming
  import opened Behavior
  import opened Batch

  class LogicController {
    var isExecuting: bool
    var canceled: bool
    var totalFiles: int
    var filesConverted: int
    var sourcePath: string
    var resultPath: string
    var settings: Settings
    /** Every call made on the form so far, oldest first. */
    var events: seq<UIEvent>
    /** Every read, rename and write so far, oldest first. */
    var actions: seq<FileAction>

    /** The folders and settings a run works with. */
    function Cfg(): Config
      reads this`sourcePath, this`resultPath, this`settings
    {
      Config(sourcePath, resultPath, settings)
    }

    /** Both folders start at the working directory; the settings start at their defaults. */
    constructor(userDir: string)
      ensures !isExecuting && !canceled
      ensures sourcePath == userDir && resultPath == userDir
      ensures settings == DefaultSettings
      ensures events == [] && actions == []
    {
      isExecuting := false;
      canceled := false;
      totalFiles := 0;
      filesConverted := 0;
      sourcePath := userDir;
      resultPath := userDir;
      settings := DefaultSettings;
      events := [];
      actions := [];
    }

    /** The form asks the running conversion to stop after the current file. */
    method CancelExecution()
      modifies this`canceled
      ensures canceled
    {
      canceled := true;
    }

    method GetIsExecuting() returns (r: bool)
      ensures r == isExecuting
    {
      r := isExecuting;
    }

    /** The settings summary, built line by line. */
    method GetCurrentBehaviorString() returns (behavior: string)
      ensures behavior == BehaviorText(settings, sourcePath, resultPath)
    {
      behavior := "";
      if !settings.shouldRename && sourcePath == resultPath {
        behavior := behavior + REPLACING;
      } else {
        behavior := behavior + COPIES;
      }
      assert behavior == FirstLine(settings, sourcePath, resultPath);
      behavior := behavior + "\n";
      if settings.shouldRename {
        if settings.addAsPrefix {
          behavior := behavior + ADDING_PREFIX;
        } else {
          behavior := behavior + ADDING_SUFFIX;
        }
        behavior := behavior + ("\"" + settings.addTextToFileName + "\" to ");
        if settings.renameNewFile {
          behavior := behavior + "converted image";
        } else {
          behavior := behavior + "original image";
        }
        behavior := behavior + "\n";
        behavior := behavior + (BULLET + GetExampleRename(settings));
      }
      BehaviorTextInOrder(settings, sourcePath, resultPath);
    }

    /**
     * `squish` for the file `originalName` of the source folder, decoded as `image`;
     * `writeOk` is whether writing the output succeeds. A failed write is reported
     * and cancels the run; a successful one is counted.
     */
    method Squish(originalName: string, image: Image, writeOk: bool)
      requires isExecuting && '.' in originalName
      modifies this`filesConverted, this`canceled, this`events, this`actions
      ensures filesConverted == old(filesConverted) + (if writeOk then 1 else 0)
      ensures canceled == (old(canceled) || !writeOk)
      ensures events == old(events) + SquishStep(old(Cfg()), originalName, image, writeOk).events
      ensures actions == old(actions) + SquishStep(old(Cfg()), originalName, image, writeOk).actions
    {
      var newWidth := image.height;
      var height := image.height;
      var fileDotIndex := LastIndexOf(originalName, '.');
      var formatName := originalName[fileDotIndex + 1..];
      var newFile := JoinPath(resultPath, originalName);
      if settings.shouldRename {
        if settings.renameNewFile {
          newFile := ModifyFilePath(settings, resultPath, originalName);
        } else {
          actions := actions + [RenameTo(JoinPath(sourcePath, originalName),
                                         ModifyFilePath(settings, sourcePath, originalName))];
        }
      }
      actions := actions + [Write(newFile, newWidth, height, formatName, writeOk)];
      if writeOk {
        filesConverted := filesConverted + 1;
      } else {
        events := events + [ErrorWriting];
        canceled := true;
      }
    }

    /**
     * The body of the `execute` loop for the entry `curFile` of the listing, before
     * the progress update: a directory or a non-image file is passed over; an image
     * file is read, a `null` decode is reported as corrupt, and a wide image is
     * squished.
     */
    method ConvertFile(curFile: Entry)
      requires isExecuting
      modifies this`filesConverted, this`canceled, this`events, this`actions
      ensures var step := Handle(old(Cfg()), curFile);
        filesConverted == old(filesConverted) + (if step.converted then 1 else 0) &&
        canceled == (old(canceled) || step.writeFailed) &&
        events == old(events) + step.events &&
        actions == old(actions) + step.actions
    {
      ghost var cfg := Cfg();
      var path := JoinPath(sourcePath, curFile.name);
      if !curFile.isDirectory && IsImage(path) {
        actions := actions + [Read(path)];
        match curFile.decode {
          case ReadFails =>
            assert Handle(cfg, curFile) == Step(false, false, [], [Read(path)]);
          case NullImage =>
            events := events + [ErrorCorruptImage(curFile.name)];
            assert Handle(cfg, curFile) == Step(false, false, [ErrorCorruptImage(curFile.name)], [Read(path)]);
          case Decoded(curImage) =>
            if ShouldResize(curImage.width, curImage.height) {
              IsImageOfJoinPath(sourcePath, curFile.name);
              ImageHasDot(curFile.name);
              ghost var squished := SquishStep(cfg, curFile.name, curImage, curFile.writeSucceeds);
              Squish(curFile.name, curImage, curFile.writeSucceeds);
              assert Handle(cfg, curFile) == squished.(actions := [Read(path)] + squished.actions);
              AppendAssoc(old(actions), [Read(path)], squished.actions);
            } else {
              assert Handle(cfg, curFile) == Step(false, false, [], [Read(path)]);
            }
        }
      } else {
        assert Handle(cfg, curFile) == Skip;
      }
    }

    /** The loop body for entry `fileIndex` of the listing: what `Steps` gives at that index. */
    method ConvertEntry(entries: seq<Entry>, fileIndex: nat)
      requires isExecuting && fileIndex < |entries|
      modifies this`filesConverted, this`canceled, this`events, this`actions
      ensures var step := Steps(old(Cfg()), entries)[fileIndex];
        filesConverted == old(filesConverted) + (if step.converted then 1 else 0) &&
        canceled == (old(canceled) || step.writeFailed) &&
        events == old(events) + step.events &&
        actions == old(actions) + step.actions
    {
      StepsAt(Cfg(), entries, fileIndex);
      var curFile := entries[fileIndex];
      ConvertFile(curFile);
    }

    /**
     * `execute` over the listing `entries` of the source folder. `cancelRequests[i]`
     * says that the form called `cancelExecution` just before the loop test of
     * iteration `i`. The run visits the entries up to the first stop, and its
     * count, form calls and file actions are those of the batch specification.
     */
    method Execute(entries: seq<Entry>, cancelRequests: seq<bool>)
      modifies this`isExecuting, this`canceled, this`totalFiles, this`filesConverted, this`events, this`actions
      ensures !isExecuting && !canceled && totalFiles == |entries|
      ensures var steps := Steps(old(Cfg()), entries);
        filesConverted == Visit(steps, Exit(steps, cancelRequests)).converted &&
        events == old(events) + RunEvents(steps, cancelRequests) &&
        actions == old(actions) + Visit(steps, Exit(steps, cancelRequests)).actions
    {
      isExecuting := true;
      canceled := false;
      events := events + [UpdateProgressBar(0)];
      filesConverted := 0;
      totalFiles := |entries|;
      events := events + [ToggleUI];
      ghost var steps := Steps(old(Cfg()), entries);
      ghost var start := events;
      assert start == old(events) + [UpdateProgressBar(0)] + [ToggleUI];
      if Requested(cancelRequests, 0) {
        CancelExecution();
      }
      ConvertFiles(entries, cancelRequests);
      ghost var k := Exit(steps, cancelRequests);
      ghost var visited := Visit(steps, k);
      ghost var popup := Popup(steps, cancelRequests, k);
      ghost var beforePopup := events;
      if canceled {
        assert popup == CancelPopup(filesConverted);
        events := events + [CancelPopup(filesConverted)];
        canceled := false;
      } else {
        assert popup == CompletePopup(filesConverted);
        events := events + [CompletePopup(filesConverted)];
      }
      isExecuting := false;
      events := events + [ToggleUI];
      assert events == beforePopup + [popup] + [ToggleUI];
      RunEventsShape(old(events), visited.events, popup);
      assert RunEvents(steps, cancelRequests) == [UpdateProgressBar(0), ToggleUI] + visited.events + [popup, ToggleUI];
    }

    /**
     * The `for` loop of `execute`: from the first entry, each entry is handled and
     * the progress reported, until the listing is exhausted or a loop test sees
     * `canceled`.
     */
    method ConvertFiles(entries: seq<Entry>, cancelRequests: seq<bool>)
      requires isExecuting && totalFiles == |entries| && filesConverted == 0
      requires canceled == Requested(cancelRequests, 0)
      modifies this`canceled, this`filesConverted, this`events, this`actions
      ensures var steps := Steps(old(Cfg()), entries);
        var k := Exit(steps, cancelRequests);
        canceled == StopAt(steps, cancelRequests, k) &&
        filesConverted == Visit(steps, k).converted &&
        events == old(events) + Visit(steps, k).events &&
        actions == old(actions) + Visit(steps, k).actions
    {
      ghost var steps := Steps(old(Cfg()), entries);
      var fileIndex := 0;
      while fileIndex < totalFiles && !canceled
        invariant 0 <= fileIndex <= |steps|
        invariant ExitFrom(steps, cancelRequests, fileIndex) == Exit(steps, cancelRequests)
        invariant canceled == StopAt(steps, cancelRequests, fileIndex)
        invariant filesConverted == Visit(steps, fileIndex).converted
        invariant events == old(events) + Visit(steps, fileIndex).events
        invariant actions == old(actions) + Visit(steps, fileIndex).actions
        decreases totalFiles - fileIndex
      {
        VisitExtend(steps, fileIndex, old(events), old(actions));
        ConvertEntry(entries, fileIndex);
        events := events + [UpdateProgressBar((fileIndex + 1) * 100 / totalFiles)];
        fileIndex := fileIndex + 1;
        if Requested(cancelRequests, fileIndex) {
          CancelExecution();
        }
      }
      assert fileIndex == Exit(steps, cancelRequests);
    }
  }
}
