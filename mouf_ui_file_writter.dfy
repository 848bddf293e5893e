/** `Mouf\Installer\MoufUIFileWritter`: the `mouf/MoufUI.php` file, which
    requires every file that an installed package declares under
    `extra.mouf.require-admin`, so that the Mouf user interface loads them.

    Composer's local repositories are an input (the packages, in the order
    the repositories list them), as are the current directory and the file
    system. What `writeMoufUI` does to the file system is returned as the
    path and the text it writes. */
module MoufUIFileWritter {
  import opened Wrappers
  import opened PhpStrings
  import opened PhpArrays
  import opened PhpValues
  import FileService

  /** A package of a local repository: its name and its `extra` section. */
  datatype MoufPackage = MoufPackage(name: string, extra: Value)

  ghost predicate Packages(packages: seq<MoufPackage>) {
    forall i :: 0 <= i < |packages| ==> WellFormed(packages[i].extra)
  }

  /** `$extra["mouf"]["require-admin"]`, Null when it is not set. */
  function AdminSection(extra: Value): (r: Value)
    requires WellFormed(extra)
    ensures WellFormed(r)
    ensures r != Null <==> IsSet2(extra, "mouf", "require-admin")
  {
    GetWellFormed(extra, "mouf");
    Get(Get(extra, "mouf"), "require-admin")
  }

  /** The entries of one `require-admin` value of the package `name`: when it
      is an array, the name, the directory separator and the item, one entry
      per item in its order. `foreach` over a value that is not an array
      only warns, so such a value gives nothing. */
  function Entries(name: string, section: Value): (r: seq<string>)
    requires WellFormed(section)
    ensures section.Arr? ==> |r| == |section.a.keys|
    ensures !section.Arr? ==> r == []
    ensures forall j :: 0 <= j < |r| ==> r[j] == name + "/" + ToStr(section.a.values[section.a.keys[j]])
  {
    if section.Arr? then
      seq(|section.a.keys|, j requires 0 <= j < |section.a.keys| =>
        name + "/" + ToStr(section.a.values[section.a.keys[j]]))
    else []
  }

  /** The files one package adds. */
  function AdminEntries(package: MoufPackage): (r: seq<string>)
    requires WellFormed(package.extra)
  {
    Entries(package.name, AdminSection(package.extra))
  }

  /** What `getAdminFiles` returns: the entries of every package, in
      package order. */
  function AdminFiles(packages: seq<MoufPackage>): seq<string>
    requires Packages(packages)
  {
    if packages == [] then [] else AdminEntries(packages[0]) + AdminFiles(packages[1..])
  }

  /** The list of a sequence of packages is the lists of its parts, one after
      the other: no package's files move past another's. */
  lemma {:induction false} AdminFilesAppend(a: seq<MoufPackage>, b: seq<MoufPackage>)
    requires Packages(a) && Packages(b)
    ensures Packages(a + b)
    ensures AdminFiles(a + b) == AdminFiles(a) + AdminFiles(b)
    decreases |a|
  {
    PackagesAppend(a, b);
    if a == [] {
      assert a + b == b;
    } else {
      assert (a + b)[0] == a[0];
      assert (a + b)[1..] == a[1..] + b;
      AdminFilesAppend(a[1..], b);
      calc {
        AdminFiles(a + b);
        AdminEntries((a + b)[0]) + AdminFiles((a + b)[1..]);
        AdminEntries(a[0]) + AdminFiles(a[1..] + b);
        AdminEntries(a[0]) + (AdminFiles(a[1..]) + AdminFiles(b));
        { Regroup(AdminEntries(a[0]), AdminFiles(a[1..]), AdminFiles(b)); }
        AdminEntries(a[0]) + AdminFiles(a[1..]) + AdminFiles(b);
        AdminFiles(a) + AdminFiles(b);
      }
    }
  }

  lemma PackagesAppend(a: seq<MoufPackage>, b: seq<MoufPackage>)
    requires Packages(a) && Packages(b)
    ensures Packages(a + b)
  {
    forall i | 0 <= i < |a + b| ensures WellFormed((a + b)[i].extra) {
      if i >= |a| {
        assert (a + b)[i] == b[i - |a|];
      }
    }
  }

  /** The packages up to and including the `i`-th. */
  lemma AdminFilesPrefix(packages: seq<MoufPackage>, i: nat)
    requires Packages(packages) && i < |packages|
    ensures Packages(packages[..i]) && Packages(packages[..i + 1])
    ensures AdminFiles(packages[..i + 1]) == AdminFiles(packages[..i]) + AdminEntries(packages[i])
  {
    var package := packages[i];
    assert AdminFiles([package]) == AdminEntries(package) + AdminFiles([]);
    AdminFilesAppend(packages[..i], [package]);
    assert packages[..i + 1] == packages[..i] + [package];
  }

  /** A package adds nothing exactly when it has no `extra.mouf.require-admin`,
      or that is not an array, or is an empty one; otherwise it adds one
      entry per item, each starting with the package name and a slash. */
  lemma AdminEntriesMeans(package: MoufPackage)
    requires WellFormed(package.extra)
    ensures AdminEntries(package) == [] <==>
              !IsSet2(package.extra, "mouf", "require-admin")
              || !AdminSection(package.extra).Arr?
              || AdminSection(package.extra).a.keys == []
    ensures AdminSection(package.extra).Arr? ==>
              |AdminEntries(package)| == |AdminSection(package.extra).a.keys|
    ensures forall j :: 0 <= j < |AdminEntries(package)| ==> StartsWith(AdminEntries(package)[j], package.name + "/")
  {
    var r := AdminEntries(package);
    forall j | 0 <= j < |r| ensures StartsWith(r[j], package.name + "/") {
      var section := AdminSection(package.extra);
      var item := ToStr(section.a.values[section.a.keys[j]]);
      assert r[j] == package.name + "/" + item;
      assert r[j][..|package.name + "/"|] == package.name + "/";
    }
  }

  /** Every admin file comes from one of the packages, and is that package's
      name, a slash, and one item of its `require-admin` array. */
  lemma {:induction false} AdminFilesFromPackages(packages: seq<MoufPackage>)
    requires Packages(packages)
    ensures forall f :: f in AdminFiles(packages) ==>
              exists i, j :: 0 <= i < |packages| && 0 <= j < |AdminEntries(packages[i])| && f == AdminEntries(packages[i])[j]
    ensures forall f :: f in AdminFiles(packages) ==>
              exists i :: 0 <= i < |packages| && StartsWith(f, packages[i].name + "/")
    decreases |packages|
  {
    if packages != [] {
      AdminFilesFromPackages(packages[1..]);
      AdminEntriesMeans(packages[0]);
      forall f | f in AdminFiles(packages)
        ensures exists i, j :: 0 <= i < |packages| && 0 <= j < |AdminEntries(packages[i])| && f == AdminEntries(packages[i])[j]
        ensures exists i :: 0 <= i < |packages| && StartsWith(f, packages[i].name + "/")
      {
        if f in AdminEntries(packages[0]) {
          var j :| 0 <= j < |AdminEntries(packages[0])| && f == AdminEntries(packages[0])[j];
          assert StartsWith(f, packages[0].name + "/");
        } else {
          assert f in AdminFiles(packages[1..]);
          var i, j :| 0 <= i < |packages[1..]| && 0 <= j < |AdminEntries(packages[1..][i])| && f == AdminEntries(packages[1..][i])[j];
          assert packages[1..][i] == packages[i + 1];
          AdminEntriesMeans(packages[i + 1]);
          assert StartsWith(f, packages[i + 1].name + "/");
        }
      }
    }
  }

  /** The entries of the packages without `require-admin` are no entries at
      all: dropping those packages leaves the list as it was. */
  lemma {:induction false} PackagesWithoutAdminFiles(a: seq<MoufPackage>, package: MoufPackage, b: seq<MoufPackage>)
    requires Packages(a) && Packages(b) && WellFormed(package.extra)
    requires !IsSet2(package.extra, "mouf", "require-admin")
    ensures Packages(a + [package] + b)
    ensures AdminFiles(a + [package] + b) == AdminFiles(a + b)
  {
    var front := a + [package];
    AdminFilesAppend(a, [package]);
    AdminFilesAppend(front, b);
    AdminFilesAppend(a, b);
    AdminEntriesMeans(package);
    assert AdminFiles([package]) == AdminEntries(package) + AdminFiles([]);
    assert AdminFiles(front) == AdminFiles(a);
  }

  /** The header lines `writeMoufUI` writes, one `fwrite` each. The long
      lines are spelled in pieces only so that each piece is short enough
      for the verifier to see that it holds no newline. */
  const HeaderLines: seq<string> := [
    "<?php",
    "/**",
    " * This is a file automatically" + " generated by the Mouf framework."
      + " Do not modify it, as it could" + " be overwritten.",
    " */",
    "",
    "// Files declared in the extra:" + "mouf:adminRequire section."]

  const RequirePrefix := "require_once __DIR__.'/../vendor/"

  /** The statement that loads one admin file, relative to the `mouf`
      directory. */
  function RequireStatement(fileName: string): string {
    RequirePrefix + fileName + "';"
  }

  function Statements(files: seq<string>): (r: seq<string>)
    ensures |r| == |files|
    ensures forall i :: 0 <= i < |files| ==> r[i] == RequireStatement(files[i])
  {
    seq(|files|, i requires 0 <= i < |files| => RequireStatement(files[i]))
  }

  /** Each line followed by its newline. */
  function Terminated(lines: seq<string>): (r: seq<string>)
    ensures |r| == |lines|
    ensures forall i :: 0 <= i < |lines| ==> r[i] == lines[i] + "\n"
  {
    seq(|lines|, i requires 0 <= i < |lines| => lines[i] + "\n")
  }

  /** The file's content: what the successive `fwrite` calls append. */
  function Concat(writes: seq<string>): string {
    if writes == [] then "" else writes[0] + Concat(writes[1..])
  }

  lemma {:induction false} ConcatSnoc(writes: seq<string>, w: string)
    ensures Concat(writes + [w]) == Concat(writes) + w
    decreases |writes|
  {
    if writes == [] {
      assert Concat([w]) == w + Concat([]);
    } else {
      assert (writes + [w])[1..] == writes[1..] + [w];
      ConcatSnoc(writes[1..], w);
    }
  }

  /** The `fwrite` arguments of `writeMoufUI`, in order: the header lines,
      one `require_once` statement per admin file, an empty line, and `?>`
      with no newline after it. */
  function Writes(files: seq<string>): seq<string> {
    Terminated(HeaderLines + Statements(files) + [""]) + ["?>"]
  }

  /** The text of `mouf/MoufUI.php` for a list of admin files. */
  function MoufUIText(files: seq<string>): string {
    Concat(Writes(files))
  }

  lemma {:induction false} TerminatedLines(lines: seq<string>, rest: string)
    requires forall i :: 0 <= i < |lines| ==> '\n' !in lines[i]
    ensures Lines(Concat(Terminated(lines)) + rest) == lines + Lines(rest)
    decreases |lines|
  {
    if lines == [] {
      assert Concat(Terminated(lines)) + rest == rest;
    } else {
      TerminatedLines(lines[1..], rest);
      TerminatedLinesStep(lines, rest);
    }
  }

  lemma TerminatedLinesStep(lines: seq<string>, rest: string)
    requires lines != [] && '\n' !in lines[0]
    requires Lines(Concat(Terminated(lines[1..])) + rest) == lines[1..] + Lines(rest)
    ensures Lines(Concat(Terminated(lines)) + rest) == lines + Lines(rest)
  {
    var tail := Concat(Terminated(lines[1..]));
    calc {
      Lines(Concat(Terminated(lines)) + rest);
      { ConcatTerminatedCons(lines); }
      Lines(lines[0] + "\n" + tail + rest);
      { Regroup(lines[0] + "\n", tail, rest); }
      Lines(lines[0] + "\n" + (tail + rest));
      { LinesOf(lines[0], tail + rest); }
      [lines[0]] + Lines(tail + rest);
      [lines[0]] + (lines[1..] + Lines(rest));
      { Regroup([lines[0]], lines[1..], Lines(rest)); assert [lines[0]] + lines[1..] == lines; }
      lines + Lines(rest);
    }
  }

  lemma ConcatTerminatedCons(lines: seq<string>)
    requires lines != []
    ensures Concat(Terminated(lines)) == lines[0] + "\n" + Concat(Terminated(lines[1..]))
  {
    var t := Terminated(lines);
    assert t[1..] == Terminated(lines[1..]);
  }

  lemma {:induction false} ConcatAppend(a: seq<string>, b: seq<string>)
    ensures Concat(a + b) == Concat(a) + Concat(b)
    decreases |a|
  {
    if a == [] {
      assert a + b == b;
    } else {
      assert (a + b)[1..] == a[1..] + b;
      ConcatAppend(a[1..], b);
    }
  }

  lemma HeaderLinesPlain()
    ensures forall i :: 0 <= i < |HeaderLines| ==> '\n' !in HeaderLines[i]
  {
    var pieces := [" * This is a file automatically", " generated by the Mouf framework.",
                   " Do not modify it, as it could", " be overwritten.",
                   "// Files declared in the extra:", "mouf:adminRequire section."];
    forall k | 0 <= k < |pieces[0]| ensures pieces[0][k] != '\n' { }
    forall k | 0 <= k < |pieces[1]| ensures pieces[1][k] != '\n' { }
    forall k | 0 <= k < |pieces[2]| ensures pieces[2][k] != '\n' { }
    forall k | 0 <= k < |pieces[3]| ensures pieces[3][k] != '\n' { }
    forall k | 0 <= k < |pieces[4]| ensures pieces[4][k] != '\n' { }
    forall k | 0 <= k < |pieces[5]| ensures pieces[5][k] != '\n' { }
  }

  lemma StatementPlain(fileName: string)
    requires '\n' !in fileName
    ensures '\n' !in RequireStatement(fileName)
  {
    forall k | 0 <= k < |RequirePrefix| ensures RequirePrefix[k] != '\n' { }
  }

  /** Read line by line, the file is the header, one `require_once`
      statement per admin file in list order, an empty line and `?>`. */
  lemma MoufUITextLines(files: seq<string>)
    requires forall i :: 0 <= i < |files| ==> '\n' !in files[i]
    ensures Lines(MoufUIText(files)) == HeaderLines + Statements(files) + ["", "?>"]
  {
    var lines := HeaderLines + Statements(files) + [""];
    HeaderLinesPlain();
    forall i | 0 <= i < |files| ensures '\n' !in Statements(files)[i] {
      StatementPlain(files[i]);
    }
    assert forall i :: 0 <= i < |lines| ==> '\n' !in lines[i] by {
      forall i | 0 <= i < |lines| ensures '\n' !in lines[i] {
        if i < |HeaderLines| {
          assert lines[i] == HeaderLines[i];
        } else if i < |HeaderLines| + |files| {
          assert lines[i] == Statements(files)[i - |HeaderLines|];
        }
      }
    }
    assert '\n' !in "?>";
    ClosedLines(lines, "?>");
    assert lines + ["?>"] == HeaderLines + Statements(files) + ["", "?>"];
  }

  /** Newline-terminated lines followed by a last unterminated one read back
      as those lines. */
  lemma ClosedLines(lines: seq<string>, last: string)
    requires forall i :: 0 <= i < |lines| ==> '\n' !in lines[i]
    requires '\n' !in last
    ensures Lines(Concat(Terminated(lines) + [last])) == lines + [last]
  {
    ConcatAppend(Terminated(lines), [last]);
    assert Concat([last]) == last + Concat([]);
    assert Concat(Terminated(lines) + [last]) == Concat(Terminated(lines)) + last;
    TerminatedLines(lines, last);
    SingleLine(last);
  }

  lemma SingleLine(s: string)
    requires '\n' !in s
    ensures Lines(s) == [s]
  {
    FindCharNone(s, '\n');
    assert SplitLine(s).None?;
  }

  /** The file `writeMoufUI` writes, below the current directory. */
  function MoufUIPath(cwd: string): string {
    cwd + "/mouf/MoufUI.php"
  }

  /** The directory whose writability decides for a missing file is
      `<cwd>/mouf`. */
  lemma MoufUIDirectory(cwd: string)
    ensures FileService.Dirname(MoufUIPath(cwd)) == cwd + "/mouf"
  {
    var dir := cwd + "/mouf";
    assert dir[|dir| - 1] == 'f';
    assert forall k :: 0 <= k < |"MoufUI.php"| ==> "MoufUI.php"[k] != '/';
    assert MoufUIPath(cwd) == dir + "/" + "MoufUI.php";
    FileService.DirnameOfChild(dir, "MoufUI.php");
  }

  /** The guard of `writeMoufUI`: an existing file that cannot be written,
      or a missing one whose directory cannot be written. */
  predicate Unwritable(fs: FileService.FileSystem, path: string) {
    || (fs.fileExists(path) && !fs.writable(path))
    || (!fs.fileExists(path) && !fs.writable(FileService.Dirname(path)))
  }

  /** Why `writeMoufUI` stops: the exception it throws, or the error PHP
      raises when `getAdminFiles` calls a method on a null `$composer`. */
  datatype MoufError = CannotWrite(message: string) | NullComposer

  /** The file written: its path and its whole content. */
  datatype Written = Written(path: string, content: string)

  /** What `writeMoufUI` does: the guard comes first and writes nothing;
      then the admin files are gathered, which needs `$composer`; only then
      is the file opened and written. */
  function WriteOutcome(fs: FileService.FileSystem, cwd: string, composer: Option<seq<MoufPackage>>): (r: Result<Written, MoufError>)
    requires composer.Some? ==> Packages(composer.value)
  {
    var path := MoufUIPath(cwd);
    if Unwritable(fs, path) then Failure(CannotWrite("Error, unable to write file " + path))
    else if composer.None? then Failure(NullComposer)
    else Success(Written(path, MoufUIText(AdminFiles(composer.value))))
  }

  /** The file is written exactly when the guard lets it through and the
      packages are known; it is always `<cwd>/mouf/MoufUI.php`, and an
      unwritable target is reported before anything else. */
  lemma WriteOutcomeMeans(fs: FileService.FileSystem, cwd: string, composer: Option<seq<MoufPackage>>)
    requires composer.Some? ==> Packages(composer.value)
    ensures WriteOutcome(fs, cwd, composer).Success? <==> !Unwritable(fs, MoufUIPath(cwd)) && composer.Some?
    ensures WriteOutcome(fs, cwd, composer).Success? ==>
              WriteOutcome(fs, cwd, composer).value == Written(cwd + "/mouf/MoufUI.php", MoufUIText(AdminFiles(composer.value)))
    ensures Unwritable(fs, MoufUIPath(cwd)) <==>
              WriteOutcome(fs, cwd, composer) == Failure(CannotWrite("Error, unable to write file " + MoufUIPath(cwd)))
  {
  }

  /** The writer. `_construct` has a single underscore, so it is an ordinary
      method and `new MoufUIFileWritter($composer)` runs PHP's implicit
      constructor, which ignores its argument: `composer` stays null. */
  class MoufUIFileWritter {
    /** `$composer`, reduced to the packages of its local repositories;
        None while it is null. */
    var composer: Option<seq<MoufPackage>>

    /** The implicit constructor `new MoufUIFileWritter($composer)` runs
        as the class is written. */
    constructor ()
      ensures composer == None
    {
      composer := None;
    }

    /** The constructor the class evidently means to have. */
    constructor WithComposer(packages: seq<MoufPackage>)
      ensures composer == Some(packages)
    {
      composer := Some(packages);
    }

    /** `_construct(Composer $composer)`, callable as a method only. */
    method Construct(packages: seq<MoufPackage>)
      modifies this
      ensures composer == Some(packages)
    {
      composer := Some(packages);
    }

    /** `getAdminFiles()`: the nested `foreach` appending to `$files`. */
    method GetAdminFiles() returns (r: Result<seq<string>, MoufError>)
      requires composer.Some? ==> Packages(composer.value)
      ensures composer.None? ==> r == Failure(NullComposer)
      ensures composer.Some? ==> r == Success(AdminFiles(composer.value))
    {
      if composer.None? {
        return Failure(NullComposer);
      }
      var packagesList := composer.value;
      var files := [];
      var i := 0;
      while i < |packagesList|
        invariant 0 <= i <= |packagesList|
        invariant Packages(packagesList[..i])
        invariant files == AdminFiles(packagesList[..i])
      {
        var package := packagesList[i];
        var extra := package.extra;
        if IsSet2(extra, "mouf", "require-admin") {
          files := AppendAdminEntries(files, package.name, AdminSection(extra));
        }
        AdminFilesPrefix(packagesList, i);
        i := i + 1;
      }
      assert packagesList[..i] == packagesList;
      return Success(files);
    }

    /** `writeMoufUI()`, given the current directory and the file system. */
    method WriteMoufUI(fs: FileService.FileSystem, cwd: string) returns (r: Result<Written, MoufError>)
      requires composer.Some? ==> Packages(composer.value)
      ensures r == WriteOutcome(fs, cwd, composer)
    {
      var filePath := cwd + "/mouf/MoufUI.php";
      if (fs.fileExists(filePath) && !fs.writable(filePath)) || (!fs.fileExists(filePath) && !fs.writable(FileService.Dirname(filePath))) {
        return Failure(CannotWrite("Error, unable to write file " + filePath));
      }
      var adminFiles := GetAdminFiles();
      if adminFiles.Failure? {
        return Failure(adminFiles.error);
      }
      var content := WriteRequires(adminFiles.value);
      return Success(Written(filePath, content));
    }
  }

  /** The inner `foreach` over one package's `require-admin` value. */
  method AppendAdminEntries(files: seq<string>, name: string, section: Value) returns (r: seq<string>)
    requires WellFormed(section)
    ensures r == files + Entries(name, section)
  {
    r := files;
    if section.Arr? {
      var entries := Entries(name, section);
      var j := 0;
      while j < |section.a.keys|
        invariant 0 <= j <= |section.a.keys| == |entries|
        invariant r == files + entries[..j]
      {
        var adminFile := section.a.values[section.a.keys[j]];
        r := r + [name + "/" + ToStr(adminFile)];
        assert entries[..j + 1] == entries[..j] + [entries[j]];
        j := j + 1;
      }
      assert entries[..j] == entries;
    }
  }

  /** The `fwrite` calls of `writeMoufUI` after the guard, as the text they
      append to the opened file, in order; `written` keeps the arguments. */
  method WriteRequires(adminFiles: seq<string>) returns (content: string)
    ensures content == MoufUIText(adminFiles)
  {
    content := "";
    ghost var written: seq<string> := [];
    var k := 0;
    while k < |HeaderLines|
      invariant 0 <= k <= |HeaderLines|
      invariant written == Terminated(HeaderLines[..k]) && content == Concat(written)
    {
      ConcatSnoc(written, HeaderLines[k] + "\n");
      content := content + HeaderLines[k] + "\n";
      written := written + [HeaderLines[k] + "\n"];
      k := k + 1;
    }
    var i := 0;
    while i < |adminFiles|
      invariant 0 <= i <= |adminFiles|
      invariant written == Terminated(HeaderLines + Statements(adminFiles[..i])) && content == Concat(written)
    {
      var line := "require_once __DIR__.'/../vendor/" + adminFiles[i] + "';\n";
      assert line == RequireStatement(adminFiles[i]) + "\n";
      ConcatSnoc(written, line);
      content := content + line;
      written := written + [line];
      i := i + 1;
    }
    assert adminFiles[..i] == adminFiles;
    var lines := HeaderLines + Statements(adminFiles);
    assert written == Terminated(lines);
    ConcatSnoc(written, "\n");
    content := content + "\n";
    written := written + ["\n"];
    ConcatSnoc(written, "?>");
    content := content + "?>";
    written := written + ["?>"];
    assert "" + "\n" == "\n";
    assert Terminated(lines + [""]) == Terminated(lines) + ["\n"];
    assert written == Writes(adminFiles);
  }

  /** As written, `new MoufUIFileWritter($composer)` leaves `$composer`
      null, so `writeMoufUI` fails as soon as its guard lets it through. */
  method ImplicitConstructorFails(fs: FileService.FileSystem, cwd: string, packages: seq<MoufPackage>)
    returns (r: Result<Written, MoufError>)
    requires !Unwritable(fs, MoufUIPath(cwd))
    ensures r == Failure(NullComposer)
  {
    var writer := new MoufUIFileWritter();
    r := writer.WriteMoufUI(fs, cwd);
  }

  /** Given the packages by a real constructor, `writeMoufUI` writes the
      header, one `require_once` line per admin file in package order, a
      blank line and `?>`. */
  method ConstructedWriterWrites(fs: FileService.FileSystem, cwd: string, packages: seq<MoufPackage>)
    returns (r: Result<Written, MoufError>)
    requires Packages(packages) && !Unwritable(fs, MoufUIPath(cwd))
    ensures r == Success(Written(cwd + "/mouf/MoufUI.php", MoufUIText(AdminFiles(packages))))
  {
    var writer := new MoufUIFileWritter.WithComposer(packages);
    r := writer.WriteMoufUI(fs, cwd);
  }
}
