/**
 * Node's `path.posix.basename` and `path.posix.resolve`, as far as the plugin
 * uses them: the base name of a module id, and the sibling
 * `path.posix.resolve(moduleId, '..', fileName)`.
 */
module PosixPath {
  import opened Text

  /** `s.split('/')`: the pieces between the slashes, empty pieces included. */
  function Split(s: string): (r: seq<string>)
    ensures |r| >= 1
    ensures forall k :: 0 <= k < |r| ==> '/' !in r[k]
  {
    if s == [] then [""]
    else
      var rest := Split(s[1..]);
      if s[0] == '/' then [""] + rest else [[s[0]] + rest[0]] + rest[1..]
  }

  /** `segments.join('/')`. */
  function Join(segments: seq<string>): string {
    if segments == [] then ""
    else if |segments| == 1 then segments[0]
    else segments[0] + "/" + Join(segments[1..])
  }

  /** A segment that normalisation keeps as it is. */
  predicate Plain(segment: string) {
    segment != "" && segment != "." && segment != ".." && '/' !in segment
  }

  predicate AllPlain(segments: seq<string>) {
    forall k :: 0 <= k < |segments| ==> Plain(segments[k])
  }

  /** One step of Node's `normalizeString` on an absolute path: empty and `.` pieces vanish,
      `..` drops the last kept segment (and nothing at the root), any other piece is kept. */
  function Step(kept: seq<string>, piece: string): seq<string> {
    if piece == "" || piece == "." then kept
    else if piece == ".." then (if kept == [] then [] else kept[..|kept| - 1])
    else kept + [piece]
  }

  function Fold(kept: seq<string>, pieces: seq<string>): seq<string>
    decreases |pieces|
  {
    if pieces == [] then kept else Fold(Step(kept, pieces[0]), pieces[1..])
  }

  /** The segments of the normalised absolute form of `p`. */
  function Segments(p: string): seq<string> {
    Fold([], Split(p))
  }

  function DropLast(segments: seq<string>): seq<string> {
    if segments == [] then [] else segments[..|segments| - 1]
  }

  predicate Absolute(p: string) {
    |p| > 0 && p[0] == '/'
  }

  /** The loop of `path.posix.resolve`: walk the arguments from the right, prefixing each non-empty
      one and a `/`, until one is absolute; the working directory `cwd` closes the walk. */
  function Gather(args: seq<string>, cwd: string, acc: string): string
    requires Absolute(cwd)
    decreases |args|
  {
    if args == [] then cwd + "/" + acc
    else
      var p := args[|args| - 1];
      if p == "" then Gather(args[..|args| - 1], cwd, acc)
      else if p[0] == '/' then p + "/" + acc
      else Gather(args[..|args| - 1], cwd, p + "/" + acc)
  }

  /** `path.posix.resolve(...args)` with the process working directory `cwd`. */
  function Resolve(args: seq<string>, cwd: string): string
    requires Absolute(cwd)
  {
    "/" + Join(Fold([], Split(Gather(args, cwd, ""))))
  }

  /** The sibling of `moduleId` called `fileName`: `path.posix.resolve(moduleId, '..', fileName)`. */
  function Sibling(moduleId: string, fileName: string, cwd: string): string
    requires Absolute(cwd)
  {
    Resolve([moduleId, "..", fileName], cwd)
  }

  /** The last non-empty piece, `""` when there is none. */
  function LastNonEmpty(pieces: seq<string>): string {
    if pieces == [] then ""
    else if pieces[|pieces| - 1] != "" then pieces[|pieces| - 1]
    else LastNonEmpty(pieces[..|pieces| - 1])
  }

  /** `path.posix.basename(p)`: trailing slashes ignored, the text after the last remaining slash. */
  function Basename(p: string): (r: string)
    ensures '/' !in r
  {
    var pieces := Split(p);
    LastNonEmptyIn(pieces);
    LastNonEmpty(pieces)
  }

  lemma {:induction false} LastNonEmptyIn(pieces: seq<string>)
    ensures LastNonEmpty(pieces) == "" || LastNonEmpty(pieces) in pieces
  {
    if pieces != [] && pieces[|pieces| - 1] == "" {
      LastNonEmptyIn(pieces[..|pieces| - 1]);
    }
  }

  // ---------------------------------------------------------------- split and join

  /** Splitting at a slash splits the two sides independently. */
  lemma {:induction false} SplitConcat(a: string, b: string)
    ensures Split(a + "/" + b) == Split(a) + Split(b)
  {
    if a == [] {
      assert a + "/" + b == "/" + b;
      assert ("/" + b)[1..] == b;
    } else {
      assert (a + "/" + b)[1..] == a[1..] + "/" + b;
      SplitConcat(a[1..], b);
    }
  }

  /** A string without a slash is a single piece. */
  lemma {:induction false} SplitNoSlash(s: string)
    requires '/' !in s
    ensures Split(s) == [s]
  {
    if s != [] {
      SplitNoSlash(s[1..]);
      assert [s[0]] + s[1..] == s;
    }
  }

  /** Joining slash-free segments and splitting again gives the segments back. */
  lemma {:induction false} SplitJoin(segments: seq<string>)
    requires |segments| >= 1
    requires forall k :: 0 <= k < |segments| ==> '/' !in segments[k]
    ensures Split(Join(segments)) == segments
  {
    SplitNoSlash(segments[0]);
    if |segments| > 1 {
      SplitJoin(segments[1..]);
      SplitConcat(segments[0], Join(segments[1..]));
    }
  }

  // ---------------------------------------------------------------- normalisation

  lemma {:induction false} FoldConcat(kept: seq<string>, a: seq<string>, b: seq<string>)
    ensures Fold(kept, a + b) == Fold(Fold(kept, a), b)
    decreases |a|
  {
    if a != [] {
      assert (a + b)[0] == a[0];
      assert (a + b)[1..] == a[1..] + b;
      FoldConcat(Step(kept, a[0]), a[1..], b);
      assert Fold(kept, a + b) == Fold(Step(kept, a[0]), a[1..] + b);
      assert Fold(kept, a) == Fold(Step(kept, a[0]), a[1..]);
    } else {
      assert a + b == b;
    }
  }

  /** Plain segments pass through normalisation unchanged. */
  lemma {:induction false} FoldPlain(kept: seq<string>, pieces: seq<string>)
    requires AllPlain(pieces)
    ensures Fold(kept, pieces) == kept + pieces
    decreases |pieces|
  {
    if pieces != [] {
      FoldPlain(kept + [pieces[0]], pieces[1..]);
      assert kept + [pieces[0]] + pieces[1..] == kept + pieces;
    }
  }

  /** Normalisation keeps only plain segments. */
  lemma {:induction false} FoldKeepsPlain(kept: seq<string>, pieces: seq<string>)
    requires AllPlain(kept)
    requires forall k :: 0 <= k < |pieces| ==> '/' !in pieces[k]
    ensures AllPlain(Fold(kept, pieces))
    decreases |pieces|
  {
    if pieces != [] {
      FoldKeepsPlain(Step(kept, pieces[0]), pieces[1..]);
    }
  }

  lemma SegmentsArePlain(p: string)
    ensures AllPlain(Segments(p))
  {
    FoldKeepsPlain([], Split(p));
  }

  /** The normalised segments of `/d1/.../dn` are `d1, ..., dn` when each is plain. */
  lemma SegmentsOfNormalized(segments: seq<string>)
    requires AllPlain(segments)
    ensures Segments("/" + Join(segments)) == segments
  {
    if segments == [] {
      assert "/" + Join(segments) == "" + "/" + "";
      SplitConcat("", "");
      assert Split("/" + Join(segments)) == ["", ""];
      assert Fold([], ["", ""]) == Fold([], [""]) == Fold([], []);
    } else {
      assert "/" + Join(segments) == "" + "/" + Join(segments);
      SplitConcat("", Join(segments));
      SplitJoin(segments);
      assert Split("/" + Join(segments)) == [""] + segments;
      FoldPlain(Step([], ""), segments);
    }
  }

  /** The base name of `/d1/.../dn/f` is `f`. */
  lemma BasenameOfNormalized(dirs: seq<string>, file: string)
    requires AllPlain(dirs) && Plain(file)
    ensures Basename("/" + Join(dirs + [file])) == file
  {
    var segments := dirs + [file];
    assert "/" + Join(segments) == "" + "/" + Join(segments);
    SplitConcat("", Join(segments));
    SplitJoin(segments);
    assert Split("/" + Join(segments)) == [""] + segments;
  }

  // ---------------------------------------------------------------- the sibling path

  /** The string `path.posix.resolve` normalises for the sibling of an absolute id. */
  lemma SiblingSplit(moduleId: string, fileName: string, cwd: string)
    requires Absolute(moduleId) && Absolute(cwd) && Plain(fileName)
    ensures Split(Gather([moduleId, "..", fileName], cwd, "")) == Split(moduleId) + [".."] + [fileName] + [""]
  {
    assert [moduleId, "..", fileName][..2] == [moduleId, ".."];
    assert [moduleId, ".."][..1] == [moduleId];
    var raw := Gather([moduleId, "..", fileName], cwd, "");
    assert fileName[0] != '/' by { assert fileName[0] in fileName; }
    assert raw == Gather([moduleId, ".."], cwd, fileName + "/" + "");
    assert Gather([moduleId, ".."], cwd, fileName + "/" + "") == Gather([moduleId], cwd, ".." + "/" + (fileName + "/" + ""));
    assert raw == moduleId + "/" + (".." + "/" + (fileName + "/" + ""));
    SplitConcat(fileName, "");
    SplitConcat("..", fileName + "/" + "");
    SplitConcat(moduleId, ".." + "/" + (fileName + "/" + ""));
    SplitNoSlash("..");
    SplitNoSlash(fileName);
  }

  /**
   * The sibling of an absolute module id lies in the same directory: its normalised segments are
   * those of the id without the last one, followed by `fileName`. The working directory plays no part.
   */
  lemma SiblingInSameDirectory(moduleId: string, fileName: string, cwd: string)
    requires Absolute(moduleId) && Absolute(cwd) && Plain(fileName)
    ensures Sibling(moduleId, fileName, cwd) == "/" + Join(DropLast(Segments(moduleId)) + [fileName])
    ensures Segments(Sibling(moduleId, fileName, cwd)) == DropLast(Segments(moduleId)) + [fileName]
    ensures DropLast(Segments(Sibling(moduleId, fileName, cwd))) == DropLast(Segments(moduleId))
    ensures Basename(Sibling(moduleId, fileName, cwd)) == fileName
  {
    SiblingSplit(moduleId, fileName, cwd);
    var n := Segments(moduleId);
    FoldConcat([], Split(moduleId), [".."] + [fileName] + [""]);
    assert Split(moduleId) + [".."] + [fileName] + [""] == Split(moduleId) + ([".."] + [fileName] + [""]);
    FoldConcat(n, [".."], [fileName] + [""]);
    assert [".."] + [fileName] + [""] == [".."] + ([fileName] + [""]);
    var dirs := DropLast(n);
    assert Fold(n, [".."]) == dirs;
    assert Fold(dirs, [fileName] + [""]) == dirs + [fileName] by {
      FoldConcat(dirs, [fileName], [""]);
    }
    SegmentsArePlain(moduleId);
    assert AllPlain(dirs);
    SegmentsOfNormalized(dirs + [fileName]);
    BasenameOfNormalized(dirs, fileName);
    assert DropLast(dirs + [fileName]) == dirs;
  }

  /** For an id already in normal form, `/d1/.../dn/f`, the sibling is `/d1/.../dn/fileName`. */
  lemma SiblingOfNormalized(dirs: seq<string>, file: string, fileName: string, cwd: string)
    requires AllPlain(dirs) && Plain(file) && Plain(fileName) && Absolute(cwd)
    ensures Sibling("/" + Join(dirs + [file]), fileName, cwd) == "/" + Join(dirs + [fileName])
  {
    var moduleId := "/" + Join(dirs + [file]);
    SegmentsOfNormalized(dirs + [file]);
    SiblingInSameDirectory(moduleId, fileName, cwd);
    assert DropLast(dirs + [file]) == dirs;
  }

  /** Where the walk of `Gather` stops: the working directory, or the last absolute argument and
      the non-empty ones after it. */
  function GatherHead(args: seq<string>, cwd: string): string
    requires Absolute(cwd)
    decreases |args|
  {
    if args == [] then cwd
    else
      var p := args[|args| - 1];
      if p == "" then GatherHead(args[..|args| - 1], cwd)
      else if p[0] == '/' then p
      else GatherHead(args[..|args| - 1], cwd) + "/" + p
  }

  lemma {:induction false} GatherSplits(args: seq<string>, cwd: string, acc: string)
    requires Absolute(cwd)
    ensures Gather(args, cwd, acc) == GatherHead(args, cwd) + "/" + acc
    decreases |args|
  {
    if args != [] {
      var init := args[..|args| - 1];
      var p := args[|args| - 1];
      if p == "" {
        GatherSplits(init, cwd, acc);
      } else if p[0] != '/' {
        GatherSplits(init, cwd, p + "/" + acc);
        assert GatherHead(init, cwd) + "/" + (p + "/" + acc) == GatherHead(init, cwd) + "/" + p + "/" + acc;
      }
    }
  }

  /**
   * `path.resolve(...args, fileName)` for a plain last argument is the resolved directory
   * `path.resolve(...args)` with `fileName` appended, so its base name is `fileName`.
   */
  lemma ResolveAppend(args: seq<string>, fileName: string, cwd: string)
    requires Absolute(cwd) && Plain(fileName)
    ensures Segments(Resolve(args + [fileName], cwd)) == Segments(Resolve(args, cwd)) + [fileName]
    ensures Basename(Resolve(args + [fileName], cwd)) == fileName
  {
    var h := GatherHead(args, cwd);
    assert fileName[0] != '/' by { assert fileName[0] in fileName; }
    assert (args + [fileName])[..|args|] == args;
    assert Gather(args + [fileName], cwd, "") == Gather(args, cwd, fileName + "/" + "");
    GatherSplits(args, cwd, fileName + "/" + "");
    GatherSplits(args, cwd, "");
    SplitConcat(h, fileName + "/" + "");
    SplitConcat(fileName, "");
    SplitNoSlash(fileName);
    SplitConcat(h, "");
    var dirs := Fold([], Split(h));
    assert Split(Gather(args, cwd, "")) == Split(h) + [""];
    FoldConcat([], Split(h), [""]);
    assert Fold([], Split(Gather(args, cwd, ""))) == dirs;
    assert Split(Gather(args + [fileName], cwd, "")) == Split(h) + ([fileName] + [""]);
    FoldConcat([], Split(h), [fileName] + [""]);
    FoldConcat(dirs, [fileName], [""]);
    assert Fold([], Split(Gather(args + [fileName], cwd, ""))) == dirs + [fileName];
    FoldKeepsPlain([], Split(h));
    SegmentsOfNormalized(dirs);
    SegmentsOfNormalized(dirs + [fileName]);
    BasenameOfNormalized(dirs, fileName);
  }

  // ---------------------------------------------------------------- quote freedom

  lemma {:induction false} SplitQuoteFree(s: string)
    requires QuoteFree(s)
    ensures forall k :: 0 <= k < |Split(s)| ==> QuoteFree(Split(s)[k])
  {
    if s != [] {
      SplitQuoteFree(s[1..]);
    }
  }

  lemma {:induction false} FoldQuoteFree(kept: seq<string>, pieces: seq<string>)
    requires forall k :: 0 <= k < |kept| ==> QuoteFree(kept[k])
    requires forall k :: 0 <= k < |pieces| ==> QuoteFree(pieces[k])
    ensures forall k :: 0 <= k < |Fold(kept, pieces)| ==> QuoteFree(Fold(kept, pieces)[k])
    decreases |pieces|
  {
    if pieces != [] {
      FoldQuoteFree(Step(kept, pieces[0]), pieces[1..]);
    }
  }

  lemma {:induction false} JoinQuoteFree(segments: seq<string>)
    requires forall k :: 0 <= k < |segments| ==> QuoteFree(segments[k])
    ensures QuoteFree(Join(segments))
  {
    if |segments| > 1 {
      JoinQuoteFree(segments[1..]);
    }
  }

  lemma {:induction false} GatherQuoteFree(args: seq<string>, cwd: string, acc: string)
    requires Absolute(cwd) && QuoteFree(cwd) && QuoteFree(acc)
    requires forall k :: 0 <= k < |args| ==> QuoteFree(args[k])
    ensures QuoteFree(Gather(args, cwd, acc))
    decreases |args|
  {
    if args != [] {
      var p := args[|args| - 1];
      GatherQuoteFree(args[..|args| - 1], cwd, if p == "" || p[0] == '/' then acc else p + "/" + acc);
    }
  }

  /** Resolution only rearranges the characters of its inputs and slashes: it adds no quote. */
  lemma SiblingQuoteFree(moduleId: string, fileName: string, cwd: string)
    requires Absolute(cwd) && QuoteFree(cwd) && QuoteFree(moduleId) && QuoteFree(fileName)
    ensures QuoteFree(Sibling(moduleId, fileName, cwd))
  {
    var args := [moduleId, "..", fileName];
    GatherQuoteFree(args, cwd, "");
    var raw := Gather(args, cwd, "");
    SplitQuoteFree(raw);
    FoldQuoteFree([], Split(raw));
    JoinQuoteFree(Fold([], Split(raw)));
  }

  // ---------------------------------------------------------------- a worked example

  // The examples below take their strings as parameters pinned by `requires` rather than as
  // literals in the statement: the verifier unfolds functions applied to literals eagerly.

  /** Two segments are joined with one `/`. */
  lemma JoinPair(x: string, y: string)
    ensures Join([x] + [y]) == x + "/" + y
  {
    assert ([x] + [y])[1..] == [y];
  }

  /** `/assets/app.abcd.js` is `/` + the segments `assets` and `app.abcd.js`. */
  lemma ExampleModuleSegments(moduleId: string)
    requires moduleId == "/assets/app.abcd.js"
    ensures moduleId == "/" + Join(["assets"] + ["app.abcd.js"])
    ensures AllPlain(["assets"]) && Plain("app.abcd.js")
  {
    JoinPair("assets", "app.abcd.js");
  }

  /** `/assets/app.abcd.legacy.js` is `/` + the segments `assets` and `app.abcd.legacy.js`. */
  lemma ExampleLegacySegments(legacyId: string)
    requires legacyId == "/assets/app.abcd.legacy.js"
    ensures legacyId == "/" + Join(["assets"] + ["app.abcd.legacy.js"])
    ensures Plain("app.abcd.legacy.js")
  {
    JoinPair("assets", "app.abcd.legacy.js");
  }

  /** The paths of the example: `/assets/app.abcd.js` has base name `app.abcd.js`, and its sibling
      `app.abcd.legacy.js` is `/assets/app.abcd.legacy.js`. */
  lemma ExamplePaths(moduleId: string, legacyName: string, legacyId: string, cwd: string)
    requires moduleId == "/assets/app.abcd.js" && legacyName == "app.abcd.legacy.js"
    requires legacyId == "/assets/app.abcd.legacy.js" && Absolute(cwd)
    ensures Basename(moduleId) == "app.abcd.js"
    ensures Sibling(moduleId, legacyName, cwd) == legacyId
  {
    ExampleModuleSegments(moduleId);
    ExampleLegacySegments(legacyId);
    BasenameOfNormalized(["assets"], "app.abcd.js");
    SiblingOfNormalized(["assets"], "app.abcd.js", legacyName, cwd);
  }
}
