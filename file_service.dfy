/** `Harmony\Services\FileService`: checking that a file can be written by
    walking up to its first existing ancestor, preparing its directory,
    writing it, and the text of a PHP file that returns an exported value.

    The file system is an input (`exists`, `is_writable`, `is_dir`); the
    effects of `mkdir` and `dumpFile` are returned as a list of actions. */
module FileService {
  import opened Wrappers
  import opened PhpStrings

  datatype FileSystem = FileSystem(
    fileExists: string -> bool,
    writable: string -> bool,
    isDir: string -> bool)

  /** `FileNotWritableException`, with its message and the offending path. */
  datatype FileError = FileNotWritable(message: string, path: string)

  /** What preparing and writing a file does to the file system, in order. */
  datatype Action = MakeDir(dir: string, mode: int) | DumpFile(file: string, content: string)

  /** The end of `s[..n]` with its trailing slashes removed. */
  function TrimSlashes(s: string, n: nat): (r: nat)
    requires n <= |s|
    ensures r <= n && (r == 0 || s[r - 1] != '/')
    ensures forall i :: r <= i < n ==> s[i] == '/'
  {
    if n == 0 || s[n - 1] != '/' then n else TrimSlashes(s, n - 1)
  }

  /** The end of `s[..n]` with its last name (the characters after the
      last slash) removed. */
  function TrimName(s: string, n: nat): (r: nat)
    requires n <= |s|
    ensures r <= n && (r == 0 || s[r - 1] == '/')
    ensures forall i :: r <= i < n ==> s[i] != '/'
  {
    if n == 0 || s[n - 1] == '/' then n else TrimName(s, n - 1)
  }

  /** PHP's `dirname` on a Unix system: trailing slashes and the last name
      are dropped, then the slashes before it; "/" when only slashes were
      left, "." when there was no slash; `dirname("")` is "". */
  function Dirname(path: string): (r: string)
    ensures r == "" <==> path == ""
    ensures r != "" ==> r == "/" || r == "." || (|r| < |path| && StartsWith(path, r) && r[|r| - 1] != '/')
  {
    if path == "" then ""
    else
      var a := TrimSlashes(path, |path|);
      if a == 0 then "/"
      else
        var b := TrimName(path, a);
        if b == 0 then "."
        else
          var c := TrimSlashes(path, b);
          if c == 0 then "/" else path[..c]
  }

  /** `dirname` leaves "/" and "." as they are, and a bare name is in ".". */
  lemma DirnameExamples()
    ensures Dirname("/") == "/"
    ensures Dirname(".") == "."
    ensures Dirname("composer.json") == "."
  {
  }

  /** Trailing slashes are dropped before the last name. */
  lemma DirnameTrailingSlash()
    ensures Dirname("/var/www/") == "/var"
  {
    assert TrimSlashes("/var/www/", 9) == 8;
    assert TrimName("/var/www/", 8) == 5;
    assert TrimSlashes("/var/www/", 5) == 4;
    assert "/var/www/"[..4] == "/var";
  }

  /** Only the slashes before the last name are dropped, not inner ones. */
  lemma DirnameInnerSlashes()
    ensures Dirname("vendor//harmony/x.php") == "vendor//harmony"
  {
    assert TrimName("vendor//harmony/x.php", 21) == 16;
    assert TrimSlashes("vendor//harmony/x.php", 16) == 15;
    assert "vendor//harmony/x.php"[..15] == "vendor//harmony";
  }

  /** A directory named "0" is a falsy string in PHP. */
  lemma DirnameZero()
    ensures Dirname("0/cache.php") == "0"
  {
    assert TrimName("0/cache.php", 11) == 2;
    assert "0/cache.php"[..1] == "0";
  }

  /** A bare file name lives in the current directory. */
  lemma DirnameOfName(name: string)
    requires name != "" && '/' !in name
    ensures Dirname(name) == "."
  {
    assert name[|name| - 1] in name;
  }

  /** `dirname` of a name below a directory given without a trailing slash
      is that directory. */
  lemma DirnameOfChild(dir: string, name: string)
    requires dir != "" && dir[|dir| - 1] != '/'
    requires name != "" && '/' !in name
    ensures Dirname(dir + "/" + name) == dir
  {
    var path := dir + "/" + name;
    assert path[|path| - 1] == name[|name| - 1];
    assert path[|dir|] == '/';
    assert forall i :: |dir| < i < |path| ==> path[i] == name[i - |dir| - 1];
    var b := TrimName(path, |path|);
    assert forall i :: |dir| < i < |path| ==> path[i] != '/';
    assert b == |dir| + 1;
    assert path[|dir| - 1] == dir[|dir| - 1];
    assert TrimSlashes(path, |dir| + 1) == |dir|;
    assert path[..|dir|] == dir;
  }

  /** The walk's measure: "/" and "." are where it ends at the latest. */
  function Height(p: string): nat {
    if p == "/" || p == "." then 0 else 2 * |p| + 1
  }

  lemma DirnameDescends(p: string)
    requires p != "" && p != "/" && p != "."
    ensures Height(Dirname(p)) < Height(p)
  {
  }

  function NotWritable(fs: FileSystem, p: string): FileError {
    FileNotWritable("File system error: " + (if fs.isDir(p) then "Directory " else "File ") + "'" + p + "' is not writable.", p)
  }

  /** What `detectWriteIssues` decides for `p`: the first existing path among
      `p` and its ancestors must be writable. The walk also ends, with no
      check, when `dirname` gives a falsy string ("" or "0"). It is total
      because "/" and "." exist: `dirname` leaves them as they are. */
  function WriteIssues(fs: FileSystem, p: string): Outcome<FileError>
    requires fs.fileExists("/") && fs.fileExists(".")
    decreases Height(p)
  {
    if fs.fileExists(p) then
      if fs.writable(p) then Pass else Fail(NotWritable(fs, p))
    else
      var d := Dirname(p);
      if Truthy(d) then
        DirnameDescends(p);
        WriteIssues(fs, d)
      else Pass
  }

  /** `detectWriteIssues($filename)`: the do/while loop up the ancestors. */
  method DetectWriteIssues(fs: FileSystem, filename: string) returns (r: Outcome<FileError>)
    requires fs.fileExists("/") && fs.fileExists(".")
    ensures r == WriteIssues(fs, filename)
  {
    var iterablefilename := filename;
    while true
      invariant WriteIssues(fs, iterablefilename) == WriteIssues(fs, filename)
      decreases Height(iterablefilename)
    {
      if fs.fileExists(iterablefilename) {
        if !fs.writable(iterablefilename) {
          var message := "File system error: ";
          if fs.isDir(iterablefilename) {
            message := message + "Directory ";
          } else {
            message := message + "File ";
          }
          message := message + "'" + iterablefilename + "' is not writable.";
          return Fail(FileNotWritable(message, iterablefilename));
        } else {
          return Pass;
        }
      }
      ghost var previous := iterablefilename;
      iterablefilename := Dirname(iterablefilename);
      if !Truthy(iterablefilename) {
        return Pass;
      }
      DirnameDescends(previous);
    }
  }

  /** `p` after `n` applications of `dirname`. */
  function DirnameN(p: string, n: nat): string
    decreases n
  {
    if n == 0 then p else DirnameN(Dirname(p), n - 1)
  }

  /** The walk, step by step: it passes `n` paths that do not exist, each
      with a truthy parent, and stops at the `n`-th ancestor. If that one
      exists it alone decides; if not, its `dirname` is falsy and the check
      passes. */
  lemma {:induction false} WriteIssuesWalk(fs: FileSystem, p: string) returns (n: nat)
    requires fs.fileExists("/") && fs.fileExists(".")
    ensures forall i :: 0 <= i < n ==> !fs.fileExists(DirnameN(p, i))
    ensures forall i :: 0 < i <= n ==> Truthy(DirnameN(p, i))
    ensures fs.fileExists(DirnameN(p, n)) ==>
      WriteIssues(fs, p) == if fs.writable(DirnameN(p, n)) then Pass else Fail(NotWritable(fs, DirnameN(p, n)))
    ensures !fs.fileExists(DirnameN(p, n)) ==> !Truthy(Dirname(DirnameN(p, n))) && WriteIssues(fs, p) == Pass
    decreases Height(p)
  {
    var d := Dirname(p);
    if fs.fileExists(p) || !Truthy(d) {
      return 0;
    }
    DirnameDescends(p);
    var m := WriteIssuesWalk(fs, d);
    WalkStep(fs, p, m);
    n := m + 1;
  }

  /** A path that does not exist and has a truthy parent adds one step to
      its parent's walk. */
  lemma WalkStep(fs: FileSystem, p: string, m: nat)
    requires fs.fileExists("/") && fs.fileExists(".")
    requires !fs.fileExists(p) && Truthy(Dirname(p))
    requires forall i :: 0 <= i < m ==> !fs.fileExists(DirnameN(Dirname(p), i))
    requires forall i :: 0 < i <= m ==> Truthy(DirnameN(Dirname(p), i))
    requires fs.fileExists(DirnameN(Dirname(p), m)) ==>
      WriteIssues(fs, Dirname(p)) == if fs.writable(DirnameN(Dirname(p), m)) then Pass else Fail(NotWritable(fs, DirnameN(Dirname(p), m)))
    requires !fs.fileExists(DirnameN(Dirname(p), m)) ==> !Truthy(Dirname(DirnameN(Dirname(p), m))) && WriteIssues(fs, Dirname(p)) == Pass
    ensures forall i :: 0 <= i < m + 1 ==> !fs.fileExists(DirnameN(p, i))
    ensures forall i :: 0 < i <= m + 1 ==> Truthy(DirnameN(p, i))
    ensures fs.fileExists(DirnameN(p, m + 1)) ==>
      WriteIssues(fs, p) == if fs.writable(DirnameN(p, m + 1)) then Pass else Fail(NotWritable(fs, DirnameN(p, m + 1)))
    ensures !fs.fileExists(DirnameN(p, m + 1)) ==> !Truthy(Dirname(DirnameN(p, m + 1))) && WriteIssues(fs, p) == Pass
  {
    var d := Dirname(p);
    assert p != "" && p != "/" && p != ".";
    assert WriteIssues(fs, p) == WriteIssues(fs, d);
    forall i | 0 < i <= m + 1 ensures DirnameN(p, i) == DirnameN(d, i - 1) {
    }
  }

  /** PHP truthiness ends the walk early: under a relative directory named
      "0" that does not exist, nothing is checked at all, not even ".". */
  lemma ZeroDirectoryEndsWalk(fs: FileSystem, name: string)
    requires fs.fileExists("/") && fs.fileExists(".")
    requires '/' !in name && name != "" && !fs.fileExists("0/" + name)
    ensures WriteIssues(fs, "0/" + name) == Pass
  {
    var p := "0/" + name;
    assert p[|p| - 1] == name[|name| - 1];
    assert TrimSlashes(p, |p|) == |p|;
    assert TrimName(p, |p|) == 2 by {
      assert p[1] == '/';
      assert forall i :: 2 <= i < |p| ==> p[i] == name[i - 2] && p[i] != '/';
    }
    assert TrimSlashes(p, 2) == 1;
    assert Dirname(p) == "0";
  }

  /** `prepareDirectory($filename)`: the write check first, then `mkdir` of
      the parent directory (mode 0775) only when it is not a directory yet. */
  method PrepareDirectory(fs: FileSystem, filename: string) returns (actions: seq<Action>, r: Outcome<FileError>)
    requires fs.fileExists("/") && fs.fileExists(".")
    ensures r == WriteIssues(fs, filename)
    ensures r.Fail? ==> actions == []
    ensures r.Pass? ==> actions == if fs.isDir(Dirname(filename)) then [] else [MakeDir(Dirname(filename), 0x1fd)]
  {
    actions := [];
    r := DetectWriteIssues(fs, filename);
    if r.Fail? {
      return;
    }
    var dirname := Dirname(filename);
    if !fs.isDir(dirname) {
      actions := [MakeDir(dirname, 0x1fd)];
    }
  }

  /** The actions of a write whose check passed: `mkdir` of the parent
      unless it is a directory already, then the dump. */
  function Written(fs: FileSystem, filename: string, content: string): seq<Action> {
    (if fs.isDir(Dirname(filename)) then [] else [MakeDir(Dirname(filename), 0x1fd)]) + [DumpFile(filename, content)]
  }

  /** `writeFile($filename, $content)`: the content is dumped only after the
      directory was prepared; nothing is written when the check fails. */
  method WriteFile(fs: FileSystem, filename: string, content: string) returns (actions: seq<Action>, r: Outcome<FileError>)
    requires fs.fileExists("/") && fs.fileExists(".")
    ensures r == WriteIssues(fs, filename)
    ensures r.Fail? ==> actions == []
    ensures r.Pass? ==> actions == Written(fs, filename, content)
    ensures r.Pass? ==> |actions| >= 1 && actions[|actions| - 1] == DumpFile(filename, content)
    ensures r.Pass? ==> forall i :: 0 <= i < |actions| - 1 ==> actions[i] == MakeDir(Dirname(filename), 0x1fd)
  {
    actions, r := PrepareDirectory(fs, filename);
    if r.Fail? {
      return;
    }
    actions := actions + [DumpFile(filename, content)];
  }

  /** The file system after one action: `mkdir` leaves a writable
      directory, `dumpFile` a writable file that is not a directory. */
  function Effect(fs: FileSystem, a: Action): FileSystem {
    match a
    case MakeDir(dir, _) =>
      FileSystem(p => p == dir || fs.fileExists(p), p => p == dir || fs.writable(p), p => p == dir || fs.isDir(p))
    case DumpFile(file, _) =>
      FileSystem(p => p == file || fs.fileExists(p), p => p == file || fs.writable(p), p => p != file && fs.isDir(p))
  }

  /** The file system after the actions, in order; nothing that existed
      disappears. */
  function Apply(fs: FileSystem, actions: seq<Action>): (r: FileSystem)
    ensures forall p :: fs.fileExists(p) ==> r.fileExists(p)
    decreases |actions|
  {
    if actions == [] then fs else Apply(Effect(fs, actions[0]), actions[1..])
  }

  /** After a write, the file exists and is writable, its parent is a
      directory, and no other path has changed. */
  lemma WrittenSettles(fs: FileSystem, filename: string, content: string)
    requires filename != Dirname(filename)
    ensures var after := Apply(fs, Written(fs, filename, content));
      && after.fileExists(filename) && after.writable(filename) && !after.isDir(filename)
      && after.isDir(Dirname(filename))
      && forall q :: q != filename && q != Dirname(filename) ==>
           after.fileExists(q) == fs.fileExists(q) && after.writable(q) == fs.writable(q) && after.isDir(q) == fs.isDir(q)
  {
    var d := Dirname(filename);
    var dump := DumpFile(filename, content);
    if fs.isDir(d) {
      assert Written(fs, filename, content) == [dump];
      assert Apply(fs, [dump]) == Apply(Effect(fs, dump), []);
    } else {
      var mk := MakeDir(d, 0x1fd);
      var w := [mk, dump];
      assert Written(fs, filename, content) == w;
      assert w[1..] == [dump] && [dump][1..] == [];
      assert Apply(fs, w) == Apply(Effect(fs, mk), [dump]);
      assert Apply(Effect(fs, mk), [dump]) == Apply(Effect(Effect(fs, mk), dump), []);
    }
  }

  /** The text `writePhpExportFile` builds, as written: the header, the
      comment block when the comment is truthy, then `return`, the exported
      value and a newline, with no `;` to end the statement. */
  function PhpExportTextAsWritten(exported: string, comment: string): string {
    "<?php\n" + (if Truthy(comment) then "/*\n" + comment + "\n*/\n" else "") + "return " + exported + "\n"
  }

  /** A file of this text does not parse: PHP requires a `;` after a
      statement that is not followed by a closing `?>` tag. */
  lemma UnterminatedReturn()
    ensures PhpExportTextAsWritten("array (\n)", "") == "<?php\nreturn array (\n)\n"
    ensures !EndsWith(PhpExportTextAsWritten("array (\n)", ""), ";\n")
  {
    var t := PhpExportTextAsWritten("array (\n)", "");
    assert t[|t| - 2..] == ")\n";
  }

  /** The text of the PHP file: the header, the comment block when the
      comment is truthy, then the `return` statement with its `;`. */
  function PhpExportText(exported: string, comment: string): string {
    "<?php\n" + (if Truthy(comment) then "/*\n" + comment + "\n*/\n" else "") + "return " + exported + ";\n"
  }

  /** Every file written ends its `return` statement, whatever is exported. */
  lemma PhpExportTextTerminated(exported: string, comment: string)
    ensures EndsWith(PhpExportText(exported, comment), "return " + exported + ";\n")
    ensures StartsWith(PhpExportText(exported, comment), "<?php\n")
  {
    var t := PhpExportText(exported, comment);
    var tail := "return " + exported + ";\n";
    var head := "<?php\n" + (if Truthy(comment) then "/*\n" + comment + "\n*/\n" else "");
    assert t == head + tail;
    assert t[|t| - |tail|..] == tail;
    assert t[..6] == "<?php\n";
  }

  /** The corrected text is the text as written with the `;` added after
      the exported value. */
  lemma PhpExportTextAddsSemicolon(exported: string, comment: string)
    ensures PhpExportText(exported, comment) == PhpExportTextAsWritten(exported + ";", comment)
  {
    assert "return " + exported + ";\n" == "return " + (exported + ";") + "\n";
  }

  /** Line by line, for a one-line comment and any exported value: the
      header, the comment block only when the comment is truthy, then the
      lines of the `return` statement with no `;`, which `var_export` of an
      array spreads over several lines. For a one-line value that is the
      `return` line and the empty remainder after the final newline. */
  lemma PhpExportTextAsWrittenLines(exported: string, comment: string)
    requires '\n' !in comment
    ensures Lines(PhpExportTextAsWritten(exported, comment))
         == ["<?php"] + (if Truthy(comment) then ["/*", comment, "*/"] else []) + Lines("return " + exported + "\n")
    ensures '\n' !in exported ==>
      Lines(PhpExportTextAsWritten(exported, comment))
         == ["<?php"] + (if Truthy(comment) then ["/*", comment, "*/"] else []) + ["return " + exported, ""]
  {
    var stmt := "return " + exported + "\n";
    var block := if Truthy(comment) then "/*\n" + comment + "\n*/\n" else "";
    var header: seq<string> := if Truthy(comment) then ["/*", comment, "*/"] else [];
    calc {
      Lines(PhpExportTextAsWritten(exported, comment));
      { ExportTextSplit(exported, comment); }
      Lines("<?php" + "\n" + (block + stmt));
      { LinesOf("<?php", block + stmt); }
      ["<?php"] + Lines(block + stmt);
      { BodyLines(stmt, comment); }
      ["<?php"] + (header + Lines(stmt));
      { Regroup(["<?php"], header, Lines(stmt)); }
      ["<?php"] + header + Lines(stmt);
    }
    if '\n' !in exported {
      OneLineStatement(exported);
    }
  }

  lemma OneLineStatement(exported: string)
    requires '\n' !in exported
    ensures Lines("return " + exported + "\n") == ["return " + exported, ""]
  {
    var line := "return " + exported;
    assert '\n' !in line by {
      forall i | 0 <= i < |line| ensures line[i] != '\n' {
        if i >= 7 { assert line[i] == exported[i - 7]; }
      }
    }
    StatementLines(line);
  }

  /** The same for the corrected text, whose `return` statement ends in `;`. */
  lemma PhpExportTextLines(exported: string, comment: string)
    requires '\n' !in comment
    ensures Lines(PhpExportText(exported, comment))
         == ["<?php"] + (if Truthy(comment) then ["/*", comment, "*/"] else []) + Lines("return " + exported + ";\n")
    ensures '\n' !in exported ==>
      Lines(PhpExportText(exported, comment))
         == ["<?php"] + (if Truthy(comment) then ["/*", comment, "*/"] else []) + ["return " + exported + ";", ""]
  {
    var header: seq<string> := if Truthy(comment) then ["/*", comment, "*/"] else [];
    var line := "return " + (exported + ";");
    assert line == "return " + exported + ";" by { Regroup("return ", exported, ";"); }
    assert line + "\n" == "return " + exported + ";\n" by {
      assert ";\n" == ";" + "\n";
      Regroup("return " + exported, ";", "\n");
    }
    calc {
      Lines(PhpExportText(exported, comment));
      { PhpExportTextAddsSemicolon(exported, comment); }
      Lines(PhpExportTextAsWritten(exported + ";", comment));
      { PhpExportTextAsWrittenLines(exported + ";", comment); }
      ["<?php"] + header + Lines(line + "\n");
    }
    if '\n' !in exported {
      assert '\n' !in exported + ";";
      OneLineStatement(exported + ";");
    }
  }

  lemma BodyLines(stmt: string, comment: string)
    requires '\n' !in comment
    ensures Lines((if Truthy(comment) then "/*\n" + comment + "\n*/\n" else "") + stmt)
         == (if Truthy(comment) then ["/*", comment, "*/"] else []) + Lines(stmt)
  {
    if Truthy(comment) {
      CommentLines(comment, stmt);
    } else {
      assert "" + stmt == stmt;
    }
  }

  lemma ExportTextSplit(exported: string, comment: string)
    ensures PhpExportTextAsWritten(exported, comment)
         == "<?php" + "\n" + ((if Truthy(comment) then "/*\n" + comment + "\n*/\n" else "") + ("return " + exported + "\n"))
  {
    assert "<?php\n" == "<?php" + "\n";
  }

  lemma StatementLines(stmt: string)
    requires '\n' !in stmt
    ensures Lines(stmt + "\n") == [stmt, ""]
  {
    assert stmt + "\n" == stmt + "\n" + "";
    LinesOf(stmt, "");
    assert Lines("") == [""];
  }

  lemma CommentLines(comment: string, rest: string)
    requires '\n' !in comment
    ensures Lines("/*\n" + comment + "\n*/\n" + rest) == ["/*", comment, "*/"] + Lines(rest)
  {
    ThreeLines("/*", comment, "*/", rest);
    CommentBlock(comment, rest);
  }

  lemma ThreeLines(a: string, b: string, c: string, rest: string)
    requires '\n' !in a && '\n' !in b && '\n' !in c
    ensures Lines(a + "\n" + (b + "\n" + (c + "\n" + rest))) == [a, b, c] + Lines(rest)
  {
    var s3 := c + "\n" + rest;
    var s2 := b + "\n" + s3;
    LinesOf(c, rest);
    LinesOf(b, s3);
    LinesOf(a, s2);
    calc {
      Lines(a + "\n" + s2);
      [a] + Lines(s2);
      [a] + ([b] + Lines(s3));
      [a] + ([b] + ([c] + Lines(rest)));
      { Cons3(a, b, c, Lines(rest)); }
      [a, b, c] + Lines(rest);
    }
  }

  /** Regrouping kept apart from `Lines`, over any element type: inside the
      lemma above the solver does not find it within its budget. */
  lemma Cons3<T>(a: T, b: T, c: T, tail: seq<T>)
    ensures [a] + ([b] + ([c] + tail)) == [a, b, c] + tail
  {
  }

  lemma CommentBlock(comment: string, rest: string)
    ensures "/*\n" + comment + "\n*/\n" + rest == "/*" + "\n" + (comment + "\n" + ("*/" + "\n" + rest))
  {
    assert "/*\n" == "/*" + "\n";
    assert "\n*/\n" == "\n" + "*/" + "\n";
  }

  /** `writePhpExportFile($filename, $variable, $comment)`, with the value
      already exported by `var_export`. */
  method WritePhpExportFile(fs: FileSystem, filename: string, exported: string, comment: string)
    returns (actions: seq<Action>, r: Outcome<FileError>)
    requires fs.fileExists("/") && fs.fileExists(".")
    ensures r == WriteIssues(fs, filename)
    ensures r.Fail? ==> actions == []
    ensures r.Pass? ==> actions == Written(fs, filename, PhpExportTextAsWritten(exported, comment))
    ensures r.Pass? ==> |actions| >= 1 && actions[|actions| - 1] == DumpFile(filename, PhpExportTextAsWritten(exported, comment))
    ensures r.Pass? ==> forall i :: 0 <= i < |actions| - 1 ==> actions[i] == MakeDir(Dirname(filename), 0x1fd)
  {
    var phpCode := "<?php\n";
    if Truthy(comment) {
      phpCode := phpCode + "/*\n" + comment + "\n*/\n";
    }
    phpCode := phpCode + "return " + exported;
    phpCode := phpCode + "\n";
    assert phpCode == PhpExportTextAsWritten(exported, comment);
    actions, r := WriteFile(fs, filename, phpCode);
  }
}
