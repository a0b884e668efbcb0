/**
 * The settings summary shown on the form: `getExampleRename` and the text that
 * `getCurrentBehaviorString` builds, with the facts the summary promises.
 */
module Behavior {
  import opened Strings
  import opened Naming

  /** Every line of the summary opens with this bullet. */
  const BULLET := "• "
  const REPLACING_TEXT := "Replacing originals" + " with converted" + " screenshots"
  const COPIES_TEXT := "Making copies" + " of converted" + " screenshots"
  const REPLACING := BULLET + REPLACING_TEXT
  const COPIES := BULLET + COPIES_TEXT
  const ADDING_PREFIX := BULLET + "Adding prefix "
  const ADDING_SUFFIX := BULLET + "Adding suffix "

  /** The sample file name the example is worked on. */
  function ExampleName(s: Settings): string {
    if s.renameNewFile then "converted.png" else "original.png"
  }

  /** `getExampleRename`: `Ex: "<name>" -> "<renamed>"`. */
  function GetExampleRename(s: Settings): string {
    var exampleName := ExampleName(s);
    "Ex: \"" + exampleName + "\" -> \"" + GetRename(s, exampleName) + "\""
  }

  function FirstLine(s: Settings, sourcePath: string, resultPath: string): string {
    if !s.shouldRename && sourcePath == resultPath then REPLACING else COPIES
  }

  /** The rename line after its bullet: prefix or suffix, the text, and which image gets it. */
  function RenameLineText(s: Settings): string {
    (if s.addAsPrefix then "Adding prefix " else "Adding suffix ") +
    "\"" + s.addTextToFileName + "\" to " +
    (if s.renameNewFile then "converted image" else "original image")
  }

  /** The summary text: the first line, and when renaming the rename line and the example. */
  function BehaviorText(s: Settings, sourcePath: string, resultPath: string): string {
    FirstLine(s, sourcePath, resultPath) + "\n" +
    (if s.shouldRename then BULLET + RenameLineText(s) + "\n" + BULLET + GetExampleRename(s) else "")
  }

  /** The character at a position inside a prefix is the prefix's own. */
  lemma StartsWithAt(r: string, p: string, i: nat)
    requires StartsWith(r, p) && i < |p|
    ensures r[i] == p[i]
  {
    assert r[..|p|][i] == r[i];
  }

  lemma LeadingLetters()
    ensures REPLACING[2] == 'R' && COPIES[2] == 'M'
    ensures ADDING_PREFIX[9] == 'p' && ADDING_SUFFIX[9] == 's'
  {
  }

  /** The first line announces replacement exactly when nothing is renamed and the folders agree. */
  lemma BehaviorFirstLine(s: Settings, sourcePath: string, resultPath: string)
    ensures StartsWith(BehaviorText(s, sourcePath, resultPath), REPLACING + "\n") <==>
            !s.shouldRename && sourcePath == resultPath
    ensures StartsWith(BehaviorText(s, sourcePath, resultPath), COPIES + "\n") <==>
            !(!s.shouldRename && sourcePath == resultPath)
  {
    var r := BehaviorText(s, sourcePath, resultPath);
    var first := FirstLine(s, sourcePath, resultPath);
    var rest := if s.shouldRename then BULLET + RenameLineText(s) + "\n" + BULLET + GetExampleRename(s) else "";
    assert r == (first + "\n") + rest;
    assert StartsWith(r, first + "\n");
    LeadingLetters();
    StartsWithAt(r, first + "\n", 2);
    if StartsWith(r, REPLACING + "\n") {
      StartsWithAt(r, REPLACING + "\n", 2);
    }
    if StartsWith(r, COPIES + "\n") {
      StartsWithAt(r, COPIES + "\n", 2);
    }
  }

  /** Where the quoted sample name and the quoted rename sit in `Ex: "<n>" -> "<m>"`. */
  lemma QuotedExampleShape(n: string, m: string)
    ensures var e := "Ex: \"" + n + "\" -> \"" + m + "\"";
      e[..|n| + 6] == "Ex: \"" + n + "\"" && EndsWith(e, "\"" + m + "\"") &&
      (|n| > 0 ==> e[5] == n[0])
  {
    var e := "Ex: \"" + n + "\" -> \"" + m + "\"";
    assert e == ("Ex: \"" + n + "\"") + (" -> " + ("\"" + m + "\""));
  }

  /** The example is worked on "converted.png" exactly when the converted file is renamed. */
  lemma ExampleUsesConvertedName(s: Settings)
    ensures StartsWith(GetExampleRename(s), "Ex: \"" + "converted.png" + "\"") <==> s.renameNewFile
    ensures EndsWith(GetExampleRename(s), "\"" + GetRename(s, ExampleName(s)) + "\"")
  {
    var n := ExampleName(s);
    QuotedExampleShape(n, GetRename(s, n));
    if !s.renameNewFile {
      OriginalIsNotConverted(GetExampleRename(s), GetRename(s, n));
    }
  }

  /** An example worked on "original.png" does not open with the quoted "converted.png". */
  lemma OriginalIsNotConverted(e: string, m: string)
    requires e == "Ex: \"" + "original.png" + "\" -> \"" + m + "\""
    ensures !StartsWith(e, "Ex: \"" + "converted.png" + "\"")
  {
    QuotedExampleShape("original.png", m);
    var p := "Ex: \"" + "converted.png" + "\"";
    if StartsWith(e, p) {
      StartsWithAt(e, p, 5);
    }
  }

  /** With the shipped settings the example reads `Ex: "converted.png" -> "converted_fix.png"`. */
  lemma DefaultExample()
    ensures GetExampleRename(DefaultSettings) ==
      "Ex: \"" + "converted.png" + "\" -> \"" + "converted_fix.png" + "\""
  {
    var n := "converted.png";
    assert n[9] == '.';
    assert LastIndexOf(n, '.') == 9;
    assert n[..9] == "converted";
    assert n[9..] == ".png";
    assert GetRename(DefaultSettings, n) == "converted" + "_fix" + ".png";
  }

  lemma ExampleAvoids(c: char, s: Settings)
    requires c == '\n' || c == '•'
    requires c !in s.addTextToFileName
    ensures c !in GetExampleRename(s)
  {
    assert c !in ExampleName(s);
    RenameKeepsAbsent(s, ExampleName(s), c);
  }

  lemma LineTextsAvoid(c: char)
    requires c == '\n' || c == '•'
    ensures c !in REPLACING_TEXT && c !in COPIES_TEXT
  {
  }

  lemma RenameLineAvoids(c: char, s: Settings)
    requires c == '\n' || c == '•'
    requires c !in s.addTextToFileName
    ensures c !in RenameLineText(s)
  {
  }

  /** Counting over the summary's shape, with the line texts left abstract. */
  lemma {:induction false} CountSummaryShape(c: char, first: string, line: string, ex: string, renaming: bool)
    requires c == '\n' || c == '•'
    requires c !in first && c !in line && c !in ex
    ensures CountChar(c, BULLET + first + "\n" + (if renaming then BULLET + line + "\n" + BULLET + ex else "")) ==
      if c == '•' then (if renaming then 3 else 1) else (if renaming then 2 else 1)
  {
    CountCharAbsent(c, first);
    CountCharAbsent(c, line);
    CountCharAbsent(c, ex);
    CountCharAppend(c, BULLET, first);
    CountCharAppend(c, BULLET + first, "\n");
    CountCharAppend(c, BULLET, line);
    CountCharAppend(c, BULLET + line, "\n");
    CountCharAppend(c, BULLET, ex);
    CountCharAppend(c, BULLET + line + "\n", BULLET + ex);
    var rest := if renaming then BULLET + line + "\n" + BULLET + ex else "";
    assert renaming ==> rest == (BULLET + line + "\n") + (BULLET + ex);
    CountCharAppend(c, BULLET + first + "\n", rest);
  }

  /**
   * Line and bullet structure: one line break and one bullet without renaming; with
   * renaming two line breaks and three bullets (the rename line and the example).
   */
  lemma BehaviorLineCount(s: Settings, sourcePath: string, resultPath: string)
    requires '\n' !in s.addTextToFileName && '•' !in s.addTextToFileName
    ensures CountChar('\n', BehaviorText(s, sourcePath, resultPath)) == if s.shouldRename then 2 else 1
    ensures CountChar('•', BehaviorText(s, sourcePath, resultPath)) == if s.shouldRename then 3 else 1
  {
    var first := if !s.shouldRename && sourcePath == resultPath then REPLACING_TEXT else COPIES_TEXT;
    var line := RenameLineText(s);
    var ex := GetExampleRename(s);
    assert BehaviorText(s, sourcePath, resultPath) ==
      BULLET + first + "\n" + (if s.shouldRename then BULLET + line + "\n" + BULLET + ex else "");
    LineTextsAvoid('\n');
    LineTextsAvoid('•');
    RenameLineAvoids('\n', s);
    RenameLineAvoids('•', s);
    ExampleAvoids('\n', s);
    ExampleAvoids('•', s);
    CountSummaryShape('\n', first, line, ex, s.shouldRename);
    CountSummaryShape('•', first, line, ex, s.shouldRename);
  }

  /** The layout of a summary with a rename line, with its pieces left abstract. */
  lemma RenameLinesShape(first: string, word: string, text: string, image: string, example: string)
    ensures var t := first + "\n" + word + text + image + "\n" + (BULLET + example);
      t[|first| + 1..] == word + text + image + "\n" + BULLET + example &&
      StartsWith(t[|first| + 1..], word) && EndsWith(t, "\n" + BULLET + example)
  {
    var t := first + "\n" + word + text + image + "\n" + (BULLET + example);
    assert t[|first| + 1..] == word + (text + image + "\n" + (BULLET + example));
    assert t == (first + "\n" + word + text + image) + ("\n" + BULLET + example);
  }

  /** With renaming on, the second line names prefix or suffix and the summary ends with the example. */
  lemma BehaviorRenameLines(s: Settings, sourcePath: string, resultPath: string)
    requires s.shouldRename
    ensures var rest := BehaviorText(s, sourcePath, resultPath)[|FirstLine(s, sourcePath, resultPath)| + 1..];
      (StartsWith(rest, ADDING_PREFIX) <==> s.addAsPrefix) &&
      (StartsWith(rest, ADDING_SUFFIX) <==> !s.addAsPrefix)
    ensures EndsWith(BehaviorText(s, sourcePath, resultPath), "\n" + BULLET + GetExampleRename(s))
  {
    var first := FirstLine(s, sourcePath, resultPath);
    var word := if s.addAsPrefix then ADDING_PREFIX else ADDING_SUFFIX;
    var text := "\"" + s.addTextToFileName + "\" to ";
    var image := if s.renameNewFile then "converted image" else "original image";
    var rest := BehaviorText(s, sourcePath, resultPath)[|first| + 1..];
    BehaviorTextInOrder(s, sourcePath, resultPath);
    RenameLinesShape(first, word, text, image, GetExampleRename(s));
    LeadingLetters();
    StartsWithAt(rest, word, 9);
    if StartsWith(rest, ADDING_PREFIX) {
      StartsWithAt(rest, ADDING_PREFIX, 9);
    }
    if StartsWith(rest, ADDING_SUFFIX) {
      StartsWithAt(rest, ADDING_SUFFIX, 9);
    }
  }

  /**
   * With renaming on, everything after the first line is the rename line (prefix or
   * suffix, the quoted text, and the converted image exactly when `renameNewFile`,
   * else the original image) followed by the example line.
   */
  lemma BehaviorRenameLine(s: Settings, sourcePath: string, resultPath: string)
    requires s.shouldRename
    ensures BehaviorText(s, sourcePath, resultPath)[|FirstLine(s, sourcePath, resultPath)| + 1..] ==
      (if s.addAsPrefix then ADDING_PREFIX else ADDING_SUFFIX) +
      ("\"" + s.addTextToFileName + "\" to ") +
      (if s.renameNewFile then "converted image" else "original image") + "\n" +
      BULLET + GetExampleRename(s)
  {
    var word := if s.addAsPrefix then ADDING_PREFIX else ADDING_SUFFIX;
    var image := if s.renameNewFile then "converted image" else "original image";
    BehaviorTextInOrder(s, sourcePath, resultPath);
    RenameLinesShape(FirstLine(s, sourcePath, resultPath), word, "\"" + s.addTextToFileName + "\" to ",
                     image, GetExampleRename(s));
  }

  lemma Regroup(first: string, word: string, text: string, image: string, example: string)
    ensures first + "\n" + (BULLET + (word + "\"" + text + "\" to " + image) + "\n" + BULLET + example) ==
      first + "\n" + (BULLET + word) + ("\"" + text + "\" to ") + image + "\n" + (BULLET + example)
  {
  }

  /** The summary in the order `getCurrentBehaviorString` appends its pieces. */
  lemma BehaviorTextInOrder(s: Settings, sourcePath: string, resultPath: string)
    ensures BehaviorText(s, sourcePath, resultPath) ==
      if s.shouldRename then
        FirstLine(s, sourcePath, resultPath) + "\n" + (if s.addAsPrefix then ADDING_PREFIX else ADDING_SUFFIX) +
        ("\"" + s.addTextToFileName + "\" to ") +
        (if s.renameNewFile then "converted image" else "original image") + "\n" +
        (BULLET + GetExampleRename(s))
      else FirstLine(s, sourcePath, resultPath) + "\n"
  {
    var first := FirstLine(s, sourcePath, resultPath);
    if s.shouldRename {
      var word := if s.addAsPrefix then "Adding prefix " else "Adding suffix ";
      var image := if s.renameNewFile then "converted image" else "original image";
      assert RenameLineText(s) == word + "\"" + s.addTextToFileName + "\" to " + image;
      Regroup(first, word, s.addTextToFileName, image, GetExampleRename(s));
    } else {
      assert BehaviorText(s, sourcePath, resultPath) == first + "\n" + "";
    }
  }
}
