# NMS VR screenshot fix: the batch-conversion controller in Dafny

This project models `LogicController`, the controller of a desktop tool. The tool
converts the screenshots in a source folder into images with a 1:1 aspect ratio,
written to a result folder. Each wide screenshot's width is squeezed down to its height.
The model covers five parts of the controller:

- the batch loop of `execute`, and the part of `squish` that names, sizes and counts the output;
- the cancel flag and the executing flag;
- the settings summary that `getCurrentBehaviorString` builds for the form;
- the file-name helpers (`isImage`, `shouldResize`, `getRename`, `modifyFilePath`, `generateOutputPath`);
- the check that `isValidTextAddition` makes on the rename text.

Modules:

- `Strings`: `lastIndexOf` and ASCII `toLowerCase` as the controller uses them; prefix, suffix and character-count helpers for the specifications.
- `Naming`: the pure naming helpers and the `Settings` value. `Settings` holds the four behaviour fields: `shouldRename`, `renameNewFile`, `addTextToFileName` and `addAsPrefix`.
- `Validation`: `isValidTextAddition`.
  - It is a loop method with early returns.
  - It is proved against the reference predicate `ValidText` and the function `FirstIllegal`.
- `Behavior`: the summary text as a function, `BehaviorText`, with its layout lemmas.
- `Batch`: the specification of a run, as functions over an abstract folder listing.
  - An `Entry` has four fields:
    - whether it is a directory;
    - its name;
    - what decoding gave: `ReadFails` for an `IOException`, `NullImage` for `null`, or the image's size;
    - whether `ImageIO.write` returns for its output instead of throwing. The boolean that `write` returns is not looked at, as in the code.
  - `Handle` gives the effect of one entry. It is a `Step`: the count, whether `canceled` is set, the calls made on the form, and the file actions.
  - `Exit` is the number of entries the loop visits. `Visit` is the state after `k` iterations. `RunEvents` is the whole sequence of calls on the form.
- `Controller`: the class `LogicController`.
  - Its fields are `isExecuting`, `canceled`, `totalFiles`, `filesConverted`, `sourcePath`, `resultPath` and `settings`.
  - Two more fields record the effects oldest first:
    - `events` holds every call made on the form.
    - `actions` holds every read, rename and write.
  - Its methods follow the Java statement by statement. Each method's `ensures` ties the new state to the `Batch` and `Behavior` functions.
  - Those functions' properties are proved as lemmas.

Cancellation from the form's thread is an input `cancelRequests`. `cancelRequests[i]` says that `cancelExecution` was called just before the loop test of iteration `i`.

Progress follows the code: after entry `i` it is `(i + 1) * 100 / totalFiles`, truncated (NMSVRScreenshotFix.java:153). Progress is reported after every visited entry, directories and skipped files included; an empty listing reports only the initial 0.

## Model

| member | source | states |
|---|---|---|
| Naming.ShouldResize | NMSVRScreenshotFix.java:315-325 | an image is resized exactly when it is wider than tall; the square and the tall case both give false |
| Naming.IsImage | NMSVRScreenshotFix.java:300-306 | `isImage`; its meaning is stated by `Naming.IsImageIffAcceptedSuffix`, `Naming.IsImageOfJoinPath` and `Naming.ImageHasDot` |
| Naming.IsImageIffAcceptedSuffix | NMSVRScreenshotFix.java:300-306 | a path is an image exactly when it ends with '.' and "png", "jpg" or "jpeg" in any ASCII letter case; a path without '.' (extension "no extension") never is |
| Naming.IsImageOfJoinPath | NMSVRScreenshotFix.java:300-306 | classifying the full path `source + "/" + name` gives the same answer as classifying the file name alone |
| Naming.ImageHasDot | NMSVRScreenshotFix.java:300-306 | every name classified as an image contains '.', so `getRename` and `squish` can split it |
| Naming.GetRename | NMSVRScreenshotFix.java:266-273 | the rename is exactly as much longer than the original as the inserted text |
| Naming.RenameInsertsText | NMSVRScreenshotFix.java:266-273 | the text sits at the front (prefix) or at the original's last '.' (suffix), and cutting it out there gives back the original name |
| Naming.RenameLastDot | NMSVRScreenshotFix.java:266-273 | the last '.' of the rename is the original's last '.' moved right by the inserted text |
| Naming.RenameKeepsExtension | NMSVRScreenshotFix.java:266-273 | renaming keeps the extension and the image classification |
| Naming.RenameRoundTrip | NMSVRScreenshotFix.java:266-273 | the inverse `RemoveInsertedText` applied to a rename returns the original name |
| Naming.RenameKeepsAbsent | NMSVRScreenshotFix.java:266-273 | a character in neither the name nor the inserted text is not in the rename |
| Naming.ModifyFilePath | NMSVRScreenshotFix.java:291-293 | `modifyFilePath`; `Naming.ModifyFilePathName` states that its file name is the rename, and `Batch.SquishOutput` and `Batch.SquishRenamesOriginal` state where it is used |
| Naming.ModifyFilePathName | NMSVRScreenshotFix.java:291-293 | the file name of `parent + "/" + getRename(name)` is the rename, when neither the name nor the text holds '/' |
| Naming.GenerateOutputPath | NMSVRScreenshotFix.java:333-335 | the text is inserted at `dotIndex`: it stands there, the result is that much longer, and removing it gives back the input path |
| Naming.GenerateOutputPathIsSuffixRename | NMSVRScreenshotFix.java:333-335 | at the last '.', `generateOutputPath` equals the suffix rename |
| Validation.FirstIllegalFrom | NMSVRScreenshotFix.java:353-361 | the first index at or after `from` holding a character other than a letter, digit, '_' or '-'; absent exactly when every later character is allowed |
| Validation.IsValidTextAddition | NMSVRScreenshotFix.java:342-363 | accepts exactly the texts of 1..50 allowed characters; an empty text warns "empty", a text over 50 warns "too long", otherwise the warning names the first illegal character |
| Validation.ValidTextIsPlain | NMSVRScreenshotFix.java:342-363 | an accepted text holds no '.', '/', line break or bullet |
| Validation.ValidationExamples | NMSVRScreenshotFix.java:342-363 | "abc def" fails at index 3; "abc_123-XYZ" and "_fix" pass; "" fails |
| Validation.TooLongExample | NMSVRScreenshotFix.java:348-351 | 51 letters are refused and 50 letters are accepted |
| Behavior.BehaviorText | NMSVRScreenshotFix.java:231-259 | the summary text; `Behavior.BehaviorFirstLine`, `Behavior.BehaviorRenameLines`, `Behavior.BehaviorRenameLine` and `Behavior.BehaviorLineCount` state its lines |
| Behavior.BehaviorFirstLine | NMSVRScreenshotFix.java:233-240 | the summary opens with "Replacing originals…" exactly when nothing is renamed and both folders are the same, and with "Making copies…" otherwise |
| Behavior.BehaviorRenameLines | NMSVRScreenshotFix.java:241-257 | when renaming, the second line names prefix exactly when `addAsPrefix` is set and suffix otherwise, and the summary ends with the example line |
| Behavior.BehaviorRenameLine | NMSVRScreenshotFix.java:241-256 | when renaming, everything after the first line is the prefix or suffix line quoting the text and ending "to converted image" when `renameNewFile` is set and "to original image" otherwise, then a line break and the bulleted example |
| Behavior.BehaviorLineCount | NMSVRScreenshotFix.java:231-259 | without renaming the summary has one line and one bullet; with renaming it has three lines (two line breaks) and three bullets |
| Behavior.GetExampleRename | NMSVRScreenshotFix.java:280-283 | `getExampleRename`; `Behavior.ExampleUsesConvertedName` and `Behavior.DefaultExample` state its sample name and its rename |
| Behavior.ExampleUsesConvertedName | NMSVRScreenshotFix.java:280-283 | the example is worked on "converted.png" exactly when the converted file is renamed, and it ends with the quoted rename of its sample name |
| Behavior.DefaultExample | NMSVRScreenshotFix.java:280-283 | with the initial settings the example reads `Ex: "converted.png" -> "converted_fix.png"` |
| Controller.LogicController.GetCurrentBehaviorString | NMSVRScreenshotFix.java:231-259 | the string built by appending in the method's order is the summary text `BehaviorText` |
| Controller.LogicController.constructor | NMSVRScreenshotFix.java:57-61 | both folders start at the working directory, the settings start at their initial values, and the controller is idle |
| Controller.LogicController.CancelExecution | NMSVRScreenshotFix.java:214-216 | sets `canceled` and nothing else |
| Controller.LogicController.GetIsExecuting | NMSVRScreenshotFix.java:218-224 | returns `isExecuting` and changes nothing; the flag is true exactly while files are converted: the constructor starts idle, `ConvertFiles`, `ConvertEntry` and `Squish` require `isExecuting` and cannot change it, and `Execute` ends idle |
| Controller.LogicController.Squish | NMSVRScreenshotFix.java:175-209 | does exactly what `SquishStep` specifies: count +1 on a successful write; on a failed write, the error and `canceled` set; the rename of the original and the write recorded |
| Controller.LogicController.ConvertFile | NMSVRScreenshotFix.java:136-152 | one loop body before the progress update, for the entry at hand, does exactly what `Handle` specifies; it runs only while `isExecuting` |
| Controller.LogicController.ConvertEntry | NMSVRScreenshotFix.java:135-152 | the loop body for entry `fileIndex` of the listing does exactly what `Steps` gives at that index |
| Controller.LogicController.ConvertFiles | NMSVRScreenshotFix.java:134-154 | the loop visits exactly `Exit` entries; the count, the form calls (with the progress updates) and the file actions are those of `Visit` after that many iterations |
| Controller.LogicController.Execute | NMSVRScreenshotFix.java:117-165 | afterwards the controller is idle and `canceled` is cleared; `totalFiles` is the size of the listing; the count and actions are those of the visited prefix; the form receives `RunEvents` (reset, disable, per-file calls, the cancel or complete popup, enable) |
| Batch.Handle | NMSVRScreenshotFix.java:135-152 | one loop body before the progress update; `Batch.SkippedEntriesUntouched`, `Batch.HandleCounts`, `Batch.HandleWritesOnlyWide`, `Batch.NullImageReported` and `Batch.HandleWellFormed` state its outcomes |
| Batch.OutputPath | NMSVRScreenshotFix.java:188-192 | where `squish` writes; `Batch.SquishWrite` states the exact path |
| Batch.SquishStep | NMSVRScreenshotFix.java:176-208 | `squish` as a value; `Batch.SquishWrite`, `Batch.SquishOutput`, `Batch.SquishRenamesOriginal` and `Batch.HandleCounts` state its write, rename, count and cancel |
| Batch.Visit | NMSVRScreenshotFix.java:134-154 | the state after `k` iterations; `Batch.VisitCount`, `Batch.VisitActionsShape` and `Batch.VisitProgress` state its count, actions and progress |
| Batch.RunEvents | NMSVRScreenshotFix.java:121-163 | every call a run makes on the form; `Batch.RunProgress`, `Batch.CancelStopsAfterCurrentFile`, `Batch.WriteFailureHalts` and `Batch.UninterruptedRunCompletes` state its progress and its popup |
| Batch.ExitFrom | NMSVRScreenshotFix.java:134 | the loop stops at the first loop test that sees `canceled`, or at the end of the listing |
| Batch.ExitIsFirstStop | NMSVRScreenshotFix.java:134 | any `k` with no stop before it, where `k` is a stop or the end, is the number of entries visited |
| Batch.SkippedEntriesUntouched | NMSVRScreenshotFix.java:136 | a directory or a non-image entry is neither read, reported, counted nor written |
| Batch.HandleCounts | NMSVRScreenshotFix.java:136-152 | an entry is counted exactly when it is a wide image whose write succeeds, and sets `canceled` exactly when it is a wide image whose write fails; a read error or a `null` decode does neither |
| Batch.HandleWritesOnlyWide | NMSVRScreenshotFix.java:136-152 | an entry gets a write or a rename exactly when it is a wide image file; a square or tall image, a read error and a `null` decode get no output file |
| Batch.NullImageReported | NMSVRScreenshotFix.java:148-151 | a file that decodes to `null` is reported as corrupt, by name, once |
| Batch.SquishWrite | NMSVRScreenshotFix.java:176-200 | for any rename text, the output is `height × height`, in the source's format, at exactly `resultPath + "/" + getRename(name)` when the converted file is renamed and at `resultPath + "/" + name` otherwise; it is counted exactly when the write succeeds and cancels exactly when it fails |
| Batch.SquishOutput | NMSVRScreenshotFix.java:176-200 | the same, and when neither the name nor the text holds '/' the output's file name is the rename or the name and keeps the format |
| Batch.SquishRenamesOriginal | NMSVRScreenshotFix.java:189-196 | the original is renamed, to its rename in the source folder, exactly when renaming the original is chosen |
| Batch.HandleWellFormed | NMSVRScreenshotFix.java:136-152 | one entry never reports progress itself, reads only image files and writes only square images |
| Batch.StepsWellFormed | NMSVRScreenshotFix.java:134-154 | the same holds for every entry of a listing |
| Batch.CancelStopsAfterCurrentFile | NMSVRScreenshotFix.java:134-157 | a cancel request after `k` files, with no earlier stop, leaves exactly `k` files examined and ends with the cancel popup carrying their count |
| Batch.WriteFailureHalts | NMSVRScreenshotFix.java:204-208 | a failed write ends the loop right after that file, and the run ends with the cancel popup |
| Batch.UninterruptedRunCompletes | NMSVRScreenshotFix.java:134-160 | with no cancel request and no failed write every entry is visited and the run ends with the complete popup |
| Batch.VisitCount | NMSVRScreenshotFix.java:134-154 | the count after `k` iterations is the number of converting steps among the first `k`, so it lies in 0..k |
| Batch.VisitActionsShape | NMSVRScreenshotFix.java:134-154 | over a run every output written is square and every file read is an image file |
| Batch.VisitProgress | NMSVRScreenshotFix.java:153 | the first `k` iterations report exactly `(i + 1) * 100 / total` for i < k, one value each |
| Batch.PercentFacts | NMSVRScreenshotFix.java:153 | the truncated percentage lies in 0..100, grows with the number of files done and is 100 after the last file |
| Batch.RunProgressValues | NMSVRScreenshotFix.java:121-163 | the progress of a run is 0 followed by one truncated percentage per visited file |
| Batch.RunProgress | NMSVRScreenshotFix.java:121-163 | the progress of a run starts at 0, has one value per visited file, never decreases, stays in 0..100 and reaches 100 when every file was visited; a run that does not stop early visits every file |

## Left out

- The Swing form is reduced to the recorded `events`: its launch, look and feel, popups and progress bar. The `getInstance` singleton and `main` are left out as wiring.
- `ImageIO.read` and `ImageIO.write` are modelled only by their outcomes, carried on each `Entry`. The pixel scaling by `Graphics2D` is not modelled. The output's size and format are recorded on the `Write` action.
- `listFiles`, `isDirectory`, `renameTo` and `hasValidDirectoryPaths` are file-system calls.
  - The listing is the `entries` parameter.
  - A `null` listing, for a folder that does not exist, is not modelled.
  - Whether `renameTo` succeeds is ignored by the controller and is not recorded.
  - Paths are joined with '/'.
- `System.out` and `System.err` logging is left out.
- Concurrency: `cancelExecution` from the form's thread is modelled only at loop tests, through `cancelRequests`. A call of `getIsExecuting` from the form during a run is not modelled as an interleaving; the model states instead that `isExecuting` holds throughout the conversion methods. A cancel arriving during an entry takes effect at the next loop test, as it does in the code.
- `Validation.IsValidTextAddition` returns the warning instead of calling the form. It is a module-level method because it reads no controller state except the constant 50.
- Validation.IsValidTextAddition: lengths and indices count Unicode code points, not Java's UTF-16 code units (`length()`, `lastIndexOf`, `substring`, as in `Naming.GenerateOutputPath`'s `dotIndex`). A text of characters outside the Basic Multilingual Plane therefore counts shorter than in Java. For example, 26 emoji are 52 units in Java and warn "too long"; the model counts 26 and warns about an invalid character instead.
- Controller.LogicController.Execute: only the three decode outcomes (an `IOException`, `null`, or an image) and a write that throws or not are modelled. Any other runtime exception from the loop body escapes `execute` before the popup. An example is `new BufferedImage` refusing a decoded image of custom type. In that case `isExecuting` stays true and the form stays disabled. The model has no such outcome, so its `!isExecuting` holds for every listing.
- Batch.SquishStep: the boolean that `ImageIO.write` returns is discarded, as in the code. A write that returns false, for example when no writer is registered for the format name, is counted and recorded as `succeeded` even though no output file appears. The model does not tell such a write from a real one.
- `Character.isLetterOrDigit` and `String.toLowerCase` are restricted to ASCII. Non-ASCII letters and digits are refused here, though Java accepts them.
- Batch.VisitProgress: Java's 32-bit `int` overflow of `(fileIndex + 1) * 100` is not modelled. It needs more than 21 million files.
- Naming.GetRename: requires a '.' in the name. Without one, Java's `substring(0, -1)` throws. Every caller passes an image name (`Naming.ImageHasDot`) or a fixed sample name.
- Naming.GenerateOutputPath: requires `0 <= dotIndex <= |inputPath|`, where Java's `substring` would otherwise throw. Nothing in the controller calls it.
- `Batch.ExitFrom` and the other stop functions take `canceled` as seen at each loop test. The flag is never read in the middle of an entry.
