/** The delivery location handed to the target: `Runner.location` of
    grizzly/common/runner.py, and a parser that reads such a location back. */
module Url {
  import opened Wrappers
  import Decimal

  /** Everything before the port number. */
  const Host: string := "http://127.0.0.1:"

  /** The optional query parameters, each either given or omitted. `timeout`
      is in seconds; the URL carries it in milliseconds. */
  datatype Options = Options(closeAfter: Option<nat>, forcedClose: Option<bool>, timeout: Option<nat>)

  const NoOptions: Options := Options(None, None, None)

  /** What a location names: the server port, the served path and the options. */
  datatype Target = Target(port: nat, path: string, options: Options)

  predicate StartsWith(s: string, prefix: string) {
    |prefix| <= |s| && s[..|prefix|] == prefix
  }

  /** `path` with every leading `/` removed. */
  function StripSlashes(path: string): (r: string)
    ensures |r| <= |path| && r == path[|path| - |r|..]
    ensures forall i :: 0 <= i < |path| - |r| ==> path[i] == '/'
    ensures |r| > 0 ==> r[0] != '/'
    decreases |path|
  {
    if |path| > 0 && path[0] == '/' then StripSlashes(path[1..]) else path
  }

  /** Stripping slashes only removes characters. */
  lemma {:induction false} StripSlashesKeeps(path: string, c: char)
    requires c !in path
    ensures c !in StripSlashes(path)
    decreases |path|
  {
    if |path| > 0 && path[0] == '/' {
      assert forall i :: 0 <= i < |path[1..]| ==> path[1..][i] == path[i + 1];
      StripSlashesKeeps(path[1..], c);
    }
  }

  /** One `key=value` query parameter. */
  function Field(key: string, value: nat): string {
    key + "=" + Decimal.Show(value)
  }

  /** The parameters that are given, in the fixed order close_after,
      forced_close, timeout. */
  function QueryFields(o: Options): seq<string> {
    (if o.closeAfter.Some? then [Field("close_after", o.closeAfter.value)] else [])
    + (if o.forcedClose.Some? then [Field("forced_close", if o.forcedClose.value then 1 else 0)] else [])
    + (if o.timeout.Some? then [Field("timeout", o.timeout.value * 1000)] else [])
  }

  /** The strings of `fields` with `sep` between neighbours. */
  function Join(fields: seq<string>, sep: char): string
    decreases |fields|
  {
    if |fields| == 0 then ""
    else if |fields| == 1 then fields[0]
    else fields[0] + [sep] + Join(fields[1..], sep)
  }

  /** What follows the port: the path without its leading slashes, then a
      `?` and the query string when an option is given. */
  function PathQuery(path: string, o: Options): string {
    var fields := QueryFields(o);
    if |fields| == 0 then StripSlashes(path) else StripSlashes(path) + "?" + Join(fields, '&')
  }

  /** `location`: the delivery location of `path` on the local server at
      `port`, with the query string the options ask for. Reading it back
      gives the port, the path without its leading slashes, and exactly the
      options it was built from. */
  function Location(path: string, port: nat, o: Options): (r: string)
    ensures '?' !in path ==> Parse(r) == Some(Target(port, StripSlashes(path), o))
  {
    var r := Host + (Decimal.Show(port) + "/" + PathQuery(path, o));
    if '?' in path then r else ParseAssembled(path, port, o); r
  }

  /** The location without its query string. */
  function Base(path: string, port: nat): string {
    Location(path, port, NoOptions)
  }

  /** A location starts with its bare location; it has a query string
      exactly when an option is given. */
  lemma LocationShape(path: string, port: nat, o: Options)
    ensures StartsWith(Location(path, port, o), Base(path, port))
    ensures '?' !in path ==> ('?' in Location(path, port, o) <==> o != NoOptions)
  {
    var p := StripSlashes(path);
    var d := Decimal.Show(port);
    NoFieldsWithoutOptions(o);
    if o != NoOptions {
      ExtendedPrefix(Host, d + "/", p, Join(QueryFields(o), '&'));
    }
    if '?' !in path {
      StripSlashesKeeps(path, '?');
      NoQuestionMark(d, p, if o == NoOptions then None else Some(Join(QueryFields(o), '&')));
    }
  }

  lemma NoFieldsWithoutOptions(o: Options)
    ensures |QueryFields(o)| == 0 <==> o == NoOptions
  {
  }

  lemma ExtendedPrefix(h: string, x: string, p: string, q: string)
    ensures StartsWith(h + (x + (p + "?" + q)), h + (x + p))
  {
    assert h + (x + (p + "?" + q)) == (h + (x + p)) + ("?" + q);
  }

  /** The only `?` a location can hold is the one before its query string. */
  lemma NoQuestionMark(d: string, p: string, query: Option<string>)
    requires Decimal.AllDigits(d) && '?' !in p
    ensures var tail := if query.Some? then p + "?" + query.value else p;
      '?' in Host + (d + "/" + tail) <==> query.Some?
  {
    assert forall i :: 0 <= i < |d| ==> d[i] != '?';
    assert '?' !in Host;
    var tail := if query.Some? then p + "?" + query.value else p;
    if query.Some? {
      assert tail[|p|] == '?';
    }
  }

  // ----- reading a location back -----

  /** The index of the first `c` in `s`, if any. */
  function IndexOf(s: string, c: char): (r: Option<nat>)
    ensures r.Some? ==> r.value < |s| && s[r.value] == c && c !in s[..r.value]
    ensures r.None? ==> c !in s
    decreases |s|
  {
    if |s| == 0 then None
    else if s[0] == c then Some(0)
    else match IndexOf(s[1..], c)
      case None => None
      case Some(i) => Some(i + 1)
  }

  /** Cuts `s` at every `sep`. */
  function Split(s: string, sep: char): (r: seq<string>)
    ensures |r| > 0
    decreases |s|
  {
    match IndexOf(s, sep)
    case None => [s]
    case Some(i) => [s[..i]] + Split(s[i + 1..], sep)
  }

  /** The value of a leading `key=digits` parameter, its digits written as
      `"%d"` writes them, and the parameters after it. */
  function TakeField(fields: seq<string>, key: string): (Option<nat>, seq<string>) {
    if |fields| > 0 && StartsWith(fields[0], key + "=")
       && |fields[0]| > |key| + 1 && Decimal.Canonical(fields[0][|key| + 1..])
    then (Some(Decimal.Read(fields[0][|key| + 1..])), fields[1..])
    else (None, fields)
  }

  /** The options a query string's parameters name, when they are exactly
      the ones `QueryFields` can produce. */
  function ParseQuery(fields: seq<string>): Option<Options> {
    var (closeAfter, rest1) := TakeField(fields, "close_after");
    var (forced, rest2) := TakeField(rest1, "forced_close");
    var (millis, rest3) := TakeField(rest2, "timeout");
    if |rest3| > 0 then None
    else if forced.Some? && forced.value > 1 then None
    else if millis.Some? && millis.value % 1000 != 0 then None
    else Some(Options(
      closeAfter,
      if forced.Some? then Some(forced.value == 1) else None,
      if millis.Some? then Some(millis.value / 1000) else None))
  }

  /** Splits what follows the port into the path and the options of its
      query string, if it has one. */
  function ParsePathQuery(after: string): Option<(string, Options)> {
    match IndexOf(after, '?')
    case None => Some((after, NoOptions))
    case Some(q) =>
      match ParseQuery(Split(after[q + 1..], '&'))
      case None => None
      case Some(o) => Some((after[..q], o))
  }

  /** Reads what follows the host: the port as a `"%d"` numeral, a slash,
      the path and query. */
  function ParseResource(rest: string): Option<Target> {
    match IndexOf(rest, '/')
    case None => None
    case Some(k) =>
      var digits := rest[..k];
      if !Decimal.Canonical(digits) then None
      else match ParsePathQuery(rest[k + 1..])
        case None => None
        case Some((path, o)) => Some(Target(Decimal.Read(digits), path, o))
  }

  /** Reads a location produced by `Location` back into its parts. */
  function Parse(url: string): Option<Target> {
    if !StartsWith(url, Host) then None else ParseResource(url[|Host|..])
  }

  // ----- the round trip -----

  lemma {:induction false} IndexOfAfter(a: string, c: char, b: string)
    requires c !in a
    ensures IndexOf(a + [c] + b, c) == Some(|a|)
    decreases |a|
  {
    if |a| > 0 {
      assert (a + [c] + b)[1..] == a[1..] + [c] + b;
      IndexOfAfter(a[1..], c, b);
    }
  }

  /** Cutting a joined list at its separator gives the list back. */
  lemma {:induction false} SplitJoin(fields: seq<string>, sep: char)
    requires |fields| > 0
    requires forall i :: 0 <= i < |fields| ==> sep !in fields[i]
    ensures Split(Join(fields, sep), sep) == fields
    decreases |fields|
  {
    if |fields| == 1 {
      assert IndexOf(fields[0], sep).None?;
    } else {
      var tail := Join(fields[1..], sep);
      var s := fields[0] + [sep] + tail;
      assert Join(fields, sep) == s;
      IndexOfAfter(fields[0], sep, tail);
      assert s[..|fields[0]|] == fields[0];
      assert s[|fields[0]| + 1..] == tail;
      SplitJoin(fields[1..], sep);
      assert [fields[0]] + fields[1..] == fields;
    }
  }

  lemma FieldHasNoAmpersand(key: string, value: nat)
    requires '&' !in key
    ensures '&' !in Field(key, value)
  {
    var d := Decimal.Show(value);
    assert forall i :: 0 <= i < |d| ==> d[i] != '&';
    assert Field(key, value) == key + "=" + d;
  }

  lemma TakeFieldHit(key: string, value: nat, rest: seq<string>)
    ensures TakeField([Field(key, value)] + rest, key) == (Some(value), rest)
  {
    var f := Field(key, value);
    assert f[..|key| + 1] == key + "=";
    assert f[|key| + 1..] == Decimal.Show(value);
    Decimal.ReadShow(value);
    assert ([f] + rest)[1..] == rest;
  }

  lemma TakeFieldMiss(fields: seq<string>, key: string)
    requires |key| > 0
    requires |fields| > 0 ==> |fields[0]| > 0 && fields[0][0] != key[0]
    ensures TakeField(fields, key) == (None, fields)
  {
  }

  /** Reading back the parameters of a query string gives the options. */
  lemma TakeCloseAfter(o: Options)
    ensures TakeField(QueryFields(o), "close_after") == (o.closeAfter, QueryFields(o.(closeAfter := None)))
  {
    var rest := QueryFields(o.(closeAfter := None));
    if o.closeAfter.Some? {
      assert QueryFields(o) == [Field("close_after", o.closeAfter.value)] + rest;
      TakeFieldHit("close_after", o.closeAfter.value, rest);
    } else {
      TakeFieldMiss(rest, "close_after");
    }
  }

  lemma TakeForcedClose(o: Options)
    requires o.closeAfter.None?
    ensures var forced: Option<nat> := if o.forcedClose.Some? then Some(if o.forcedClose.value then 1 else 0) else None;
      TakeField(QueryFields(o), "forced_close") == (forced, QueryFields(o.(forcedClose := None)))
  {
    var rest := QueryFields(o.(forcedClose := None));
    if o.forcedClose.Some? {
      assert QueryFields(o) == [Field("forced_close", if o.forcedClose.value then 1 else 0)] + rest;
      TakeFieldHit("forced_close", if o.forcedClose.value then 1 else 0, rest);
    } else {
      TakeFieldMiss(rest, "forced_close");
    }
  }

  lemma TakeTimeout(o: Options)
    requires o.closeAfter.None? && o.forcedClose.None?
    ensures var millis: Option<nat> := if o.timeout.Some? then Some(o.timeout.value * 1000) else None;
      TakeField(QueryFields(o), "timeout") == (millis, [])
  {
    if o.timeout.Some? {
      assert QueryFields(o) == [Field("timeout", o.timeout.value * 1000)] + [];
      TakeFieldHit("timeout", o.timeout.value * 1000, []);
    } else {
      TakeFieldMiss([], "timeout");
    }
  }

  /** Reading back the parameters of a query string gives the options. */
  lemma ParseQueryFields(o: Options)
    ensures ParseQuery(QueryFields(o)) == Some(o)
  {
    TakeCloseAfter(o);
    var o1 := o.(closeAfter := None);
    TakeForcedClose(o1);
    TakeTimeout(o1.(forcedClose := None));
    if o.timeout.Some? {
      Millis(o.timeout.value);
    }
  }

  lemma Millis(seconds: nat)
    ensures (seconds * 1000) % 1000 == 0 && (seconds * 1000) / 1000 == seconds
  {
  }

  lemma QueryHasNoAmpersand(o: Options)
    ensures forall i :: 0 <= i < |QueryFields(o)| ==> '&' !in QueryFields(o)[i]
  {
    if o.closeAfter.Some? { FieldHasNoAmpersand("close_after", o.closeAfter.value); }
    if o.forcedClose.Some? { FieldHasNoAmpersand("forced_close", if o.forcedClose.value then 1 else 0); }
    if o.timeout.Some? { FieldHasNoAmpersand("timeout", o.timeout.value * 1000); }
  }

  lemma ParsePathQueryTail(p: string, o: Options)
    requires '?' !in p
    ensures var fields := QueryFields(o);
      ParsePathQuery(if |fields| == 0 then p else p + "?" + Join(fields, '&')) == Some((p, o))
  {
    var fields := QueryFields(o);
    NoFieldsWithoutOptions(o);
    if |fields| > 0 {
      var query := Join(fields, '&');
      IndexOfAfter(p, '?', query);
      assert p + "?" + query == p + ['?'] + query;
      assert (p + ['?'] + query)[..|p|] == p;
      assert (p + ['?'] + query)[|p| + 1..] == query;
      QueryHasNoAmpersand(o);
      SplitJoin(fields, '&');
      ParseQueryFields(o);
    }
  }

  lemma PrefixParts(a: string, b: string)
    ensures StartsWith(a + b, a) && (a + b)[|a|..] == b
  {
  }

  /** Parsing a location starts past the host. */
  lemma ParseHost(rest: string)
    ensures Parse(Host + rest) == ParseResource(rest)
  {
    PrefixParts(Host, rest);
  }

  lemma ParsePort(digits: string, after: string)
    requires Decimal.Canonical(digits)
    requires ParsePathQuery(after).Some?
    ensures var (path, o) := ParsePathQuery(after).value;
      ParseResource(digits + "/" + after) == Some(Target(Decimal.Read(digits), path, o))
  {
    var rest := digits + ['/'] + after;
    assert forall i :: 0 <= i < |digits| ==> digits[i] != '/';
    IndexOfAfter(digits, '/', after);
    assert rest[..|digits|] == digits;
    assert rest[|digits| + 1..] == after;
  }

  /** A location, as assembled from its parts, reads back as the port, the
      path without its leading slashes, and exactly the options. */
  lemma ParseAssembled(path: string, port: nat, o: Options)
    requires '?' !in path
    ensures Parse(Host + (Decimal.Show(port) + "/" + PathQuery(path, o))) == Some(Target(port, StripSlashes(path), o))
  {
    var after := PathQuery(path, o);
    ParseHost(Decimal.Show(port) + "/" + after);
    StripSlashesKeeps(path, '?');
    ParsePathQueryTail(StripSlashes(path), o);
    ParsePort(Decimal.Show(port), after);
    Decimal.ReadShow(port);
  }

  // ----- the runner's expected locations -----

  lemma ShowPorts()
    ensures Decimal.Show(34567) == "34567"
    ensures Decimal.Show(9999) == "9999"
  {
    assert Decimal.Show(3) == "3";
    assert Decimal.Show(34) == "34";
    assert Decimal.Show(345) == "345";
    assert Decimal.Show(3456) == "3456";
    assert Decimal.Show(9) == "9";
    assert Decimal.Show(99) == "99";
    assert Decimal.Show(999) == "999";
  }

  lemma ShowValues()
    ensures Decimal.Show(0) == "0"
    ensures Decimal.Show(10) == "10"
    ensures Decimal.Show(60000) == "60000"
  {
    assert Decimal.Show(1) == "1";
    assert Decimal.Show(6) == "6";
    assert Decimal.Show(60) == "60";
    assert Decimal.Show(600) == "600";
    assert Decimal.Show(6000) == "6000";
  }

  lemma StripSlashesExamples()
    ensures StripSlashes("/") == ""
    ensures StripSlashes("/test") == "test"
    ensures StripSlashes("/a.html") == "a.html"
    ensures StripSlashes("a.html") == "a.html"
  {
    assert "/"[1..] == "";
    assert StripSlashes("") == "";
    assert "/test"[1..] == "test";
    assert StripSlashes("test") == "test";
    assert "/a.html"[1..] == "a.html";
    assert StripSlashes("a.html") == "a.html";
  }

  lemma QueryFieldExamples()
    ensures Field("close_after", 10) == "close_after=10"
    ensures Field("forced_close", 0) == "forced_close=0"
    ensures Field("timeout", 60 * 1000) == "timeout=60000"
  {
    ShowValues();
  }

  lemma JoinExamples(a: string, b: string, c: string, sep: char)
    ensures Join([a, b], sep) == a + [sep] + b
    ensures Join([a, b, c], sep) == a + [sep] + (b + [sep] + c)
  {
    assert [a, b][1..] == [b];
    assert [a, b, c][1..] == [b, c];
    assert [b, c][1..] == [c];
    assert Join([b, c], sep) == b + [sep] + c;
  }

  /** A location assembled from its parts, grouped as written out. */
  lemma LocationFromParts(path: string, port: nat, o: Options, d: string, p: string, q: Option<string>)
    requires Decimal.Show(port) == d && StripSlashes(path) == p
    requires q == (if o == NoOptions then None else Some(Join(QueryFields(o), '&')))
    ensures q.None? ==> Location(path, port, o) == Host + d + "/" + p
    ensures q.Some? ==> Location(path, port, o) == Host + d + "/" + p + "?" + q.value
  {
    NoFieldsWithoutOptions(o);
    Regroup(Host, d, "/");
    var x := Host + d + "/";
    if q.None? {
      assert PathQuery(path, o) == p;
      Regroup(Host, d + "/", p);
    } else {
      assert PathQuery(path, o) == p + "?" + q.value;
      Regroup(Host, d + "/", p + "?" + q.value);
      Regroup(x, p + "?", q.value);
      Regroup(x, p, "?");
    }
  }

  lemma Regroup(a: string, b: string, c: string)
    ensures a + (b + c) == a + b + c
  {
  }

  /** The bare locations the runner's tests expect. */
  lemma LocationWithoutOptions()
    ensures Location("a.html", 34567, NoOptions) == "http://127.0.0.1:" + "34567" + "/" + "a.html"
    ensures Location("/a.html", 34567, NoOptions) == "http://127.0.0.1:" + "34567" + "/" + "a.html"
  {
    assert Decimal.Show(34567) == "34567" by { ShowPorts(); }
    assert StripSlashes("a.html") == "a.html" && StripSlashes("/a.html") == "a.html" by { StripSlashesExamples(); }
    LocationFromParts("a.html", 34567, NoOptions, "34567", "a.html", None);
    LocationFromParts("/a.html", 34567, NoOptions, "34567", "a.html", None);
  }

  /** The locations with one or two options the runner's tests expect. */
  lemma LocationWithOptions(o1: Options, o2: Options, o3: Options)
    requires o1 == Options(Some(10), None, None)
    requires o2 == Options(None, Some(false), None)
    requires o3 == Options(Some(10), Some(false), None)
    ensures Location("a.html", 34567, o1) == "http://127.0.0.1:" + "34567" + "/" + "a.html" + "?" + "close_after=10"
    ensures Location("a.html", 34567, o2) == "http://127.0.0.1:" + "34567" + "/" + "a.html" + "?" + "forced_close=0"
    ensures Location("a.html", 34567, o3)
            == "http://127.0.0.1:" + "34567" + "/" + "a.html" + "?" + ("close_after=10" + "&" + "forced_close=0")
  {
    var ca, fc := "close_after=10", "forced_close=0";
    assert Decimal.Show(34567) == "34567" by { ShowPorts(); }
    assert StripSlashes("a.html") == "a.html" by { StripSlashesExamples(); }
    assert Join(QueryFields(o1), '&') == ca by {
      QueryFieldExamples();
      assert QueryFields(o1) == [ca];
    }
    assert Join(QueryFields(o2), '&') == fc by {
      QueryFieldExamples();
      assert QueryFields(o2) == [fc];
    }
    assert Join(QueryFields(o3), '&') == ca + "&" + fc by {
      QueryFieldExamples();
      assert QueryFields(o3) == [ca, fc];
      JoinExamples(ca, fc, "", '&');
    }
    LocationFromParts("a.html", 34567, o1, "34567", "a.html", Some(ca));
    LocationFromParts("a.html", 34567, o2, "34567", "a.html", Some(fc));
    LocationFromParts("a.html", 34567, o3, "34567", "a.html", Some(ca + "&" + fc));
  }

  /** The location with all three options the runner's tests expect,
      `http://127.0.0.1:9999/a.html?close_after=10&forced_close=0&timeout=60000`. */
  lemma LocationWithAllOptions(o: Options)
    requires o == Options(Some(10), Some(false), Some(60))
    ensures Location("a.html", 9999, o)
            == "http://127.0.0.1:" + "9999" + "/" + "a.html" + "?" + ("close_after=10" + "&" + ("forced_close=0" + "&" + "timeout=60000"))
  {
    var q := "close_after=10" + "&" + ("forced_close=0" + "&" + "timeout=60000");
    assert Decimal.Show(9999) == "9999" by { ShowPorts(); }
    assert StripSlashes("a.html") == "a.html" by { StripSlashesExamples(); }
    assert Join(QueryFields(o), '&') == q by { AllOptionsQuery(o); }
    LocationFromParts("a.html", 9999, o, "9999", "a.html", Some(q));
  }

  lemma AllOptionsQuery(o: Options)
    requires o == Options(Some(10), Some(false), Some(60))
    ensures Join(QueryFields(o), '&') == "close_after=10" + "&" + ("forced_close=0" + "&" + "timeout=60000")
  {
    var ca, fc, to := "close_after=10", "forced_close=0", "timeout=60000";
    QueryFieldExamples();
    assert QueryFields(o) == [ca, fc, to];
    JoinExamples(ca, fc, to, '&');
  }
}
