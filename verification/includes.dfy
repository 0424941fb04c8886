/** Mapping served local files back to test-case-relative names, the step of
    `Runner.run` that records which include files a test case consumed. An
    include maps a URL prefix to a local directory; paths are taken as
    already normalised, with `/` as the separator. */
module Includes {
  import Url

  datatype Include = Include(urlPrefix: string, directory: string)

  /** `path` names a file somewhere below `directory`. */
  predicate Under(path: string, directory: string) {
    Url.StartsWith(path, directory + "/")
  }

  /** The part of `path` below `directory`. */
  function Relative(path: string, directory: string): (rel: string)
    requires Under(path, directory)
    ensures path == directory + "/" + rel
  {
    path[|directory| + 1..]
  }

  /** `os.path.join(prefix, rel)` for a relative `rel`. */
  function JoinPath(prefix: string, rel: string): (r: string)
    ensures |prefix| == 0 ==> r == rel
    ensures |prefix| > 0 && prefix[|prefix| - 1] != '/' ==> r == prefix + "/" + rel
  {
    if |prefix| == 0 || prefix[|prefix| - 1] == '/' then prefix + rel else prefix + "/" + rel
  }

  /** The test-case name of a file served from an include: the URL prefix
      without its leading slashes, joined with the file's place below the
      include's directory. */
  function TestCaseName(inc: Include, path: string): string
    requires Under(path, inc.directory)
  {
    JoinPath(Url.StripSlashes(inc.urlPrefix), Relative(path, inc.directory))
  }

  /** `name` is what `path` maps to through one of `includes`. */
  ghost predicate MapsFrom(path: string, includes: seq<Include>, name: string) {
    exists j :: 0 <= j < |includes| && Under(path, includes[j].directory)
      && name == TestCaseName(includes[j], path)
  }

  /** `name` is what some served file, lying under some include, maps to. */
  ghost predicate Maps(served: seq<string>, includes: seq<Include>, name: string) {
    exists i :: 0 <= i < |served| && MapsFrom(served[i], includes, name)
  }

  lemma MapsFromUnfold(path: string, includes: seq<Include>, name: string)
    requires |includes| > 0
    ensures MapsFrom(path, includes, name) <==>
      (Under(path, includes[0].directory) && name == TestCaseName(includes[0], path))
      || MapsFrom(path, includes[1..], name)
  {
    if MapsFrom(path, includes[1..], name) {
      var j :| 0 <= j < |includes[1..]| && Under(path, includes[1..][j].directory)
        && name == TestCaseName(includes[1..][j], path);
      assert includes[1..][j] == includes[j + 1];
    }
    if MapsFrom(path, includes, name) && !(Under(path, includes[0].directory) && name == TestCaseName(includes[0], path)) {
      var j :| 0 <= j < |includes| && Under(path, includes[j].directory)
        && name == TestCaseName(includes[j], path);
      assert includes[1..][j - 1] == includes[j];
    }
  }

  /** The names one served file maps to. */
  function NamesOf(path: string, includes: seq<Include>): (names: set<string>)
    ensures forall name :: name in names <==> MapsFrom(path, includes, name)
    decreases |includes|
  {
    if |includes| == 0 then {}
    else
      var rest := NamesOf(path, includes[1..]);
      assert forall name :: MapsFrom(path, includes, name) <==>
        (Under(path, includes[0].directory) && name == TestCaseName(includes[0], path))
        || MapsFrom(path, includes[1..], name)
      by {
        forall name {
          MapsFromUnfold(path, includes, name);
        }
      }
      if Under(path, includes[0].directory) then {TestCaseName(includes[0], path)} + rest else rest
  }

  /** The names recorded against the test case after a trial: exactly those
      of the served files that lie under an include. */
  function Consumed(served: seq<string>, includes: seq<Include>): (names: set<string>)
    ensures forall name :: name in names <==> Maps(served, includes, name)
    decreases |served|
  {
    if |served| == 0 then {}
    else
      var rest := Consumed(served[1..], includes);
      assert forall i :: 0 < i < |served| ==> served[i] == served[1..][i - 1];
      assert forall name :: Maps(served, includes, name) && !MapsFrom(served[0], includes, name) ==> Maps(served[1..], includes, name) by {
        forall name | Maps(served, includes, name) && !MapsFrom(served[0], includes, name)
          ensures Maps(served[1..], includes, name)
        {
          var i :| 0 <= i < |served| && MapsFrom(served[i], includes, name);
          assert i > 0 && served[1..][i - 1] == served[i];
        }
      }
      NamesOf(served[0], includes) + rest
  }

  /** A served file under an include contributes its test-case name. */
  lemma ConsumedVia(served: seq<string>, includes: seq<Include>, i: nat, j: nat)
    requires i < |served| && j < |includes| && Under(served[i], includes[j].directory)
    ensures TestCaseName(includes[j], served[i]) in Consumed(served, includes)
  {
    assert MapsFrom(served[i], includes, TestCaseName(includes[j], served[i]));
  }

  /** A file `rel` below an include's directory maps to `rel` joined onto
      the include's URL prefix. */
  lemma NameBelow(inc: Include, rel: string)
    ensures Under(inc.directory + "/" + rel, inc.directory)
    ensures TestCaseName(inc, inc.directory + "/" + rel) == JoinPath(Url.StripSlashes(inc.urlPrefix), rel)
  {
    var path := inc.directory + "/" + rel;
    assert path[..|inc.directory| + 1] == inc.directory + "/";
    assert path[|inc.directory| + 1..] == rel;
  }

  lemma JoinPathExamples()
    ensures JoinPath("", "inc_file.bin") == "inc_file.bin"
    ensures JoinPath("", "nested/nested_inc.bin") == "nested/nested_inc.bin"
    ensures JoinPath("test", "inc_file3.txt") == "test/inc_file3.txt"
  {
    assert "test"[3] == 't';
  }

  /** The include test's layout: an unrelated file, and files under
      `/t/include` (served at `/`) and `/t/include2` (served at `/test`). */
  ghost predicate IncludeLayout(served: seq<string>, includes: seq<Include>) {
    && includes == [Include("/", "/t/include"), Include("/test", "/t/include2")]
    && served == ["a.b",
                  includes[0].directory + "/" + "inc_file.bin",
                  includes[0].directory + "/" + "nested/nested_inc.bin",
                  includes[1].directory + "/" + "inc_file3.txt"]
  }

  /** Files under the include served at `/` keep their relative paths. */
  lemma ConsumedRootExample(served: seq<string>, includes: seq<Include>)
    requires IncludeLayout(served, includes)
    ensures "inc_file.bin" in Consumed(served, includes)
    ensures "nested/nested_inc.bin" in Consumed(served, includes)
  {
    assert Url.StripSlashes("/") == "" by { Url.StripSlashesExamples(); }
    JoinPathExamples();
    NameBelow(includes[0], "inc_file.bin");
    ConsumedVia(served, includes, 1, 0);
    NameBelow(includes[0], "nested/nested_inc.bin");
    ConsumedVia(served, includes, 2, 0);
  }

  /** A file under the include served at `/test` gains the `test/` prefix. */
  lemma ConsumedPrefixExample(served: seq<string>, includes: seq<Include>)
    requires IncludeLayout(served, includes)
    ensures "test/inc_file3.txt" in Consumed(served, includes)
  {
    assert Url.StripSlashes("/test") == "test" by { Url.StripSlashesExamples(); }
    assert JoinPath("test", "inc_file3.txt") == "test/inc_file3.txt" by { JoinPathExamples(); }
    NameBelow(includes[1], "inc_file3.txt");
    ConsumedVia(served, includes, 3, 1);
  }
}
