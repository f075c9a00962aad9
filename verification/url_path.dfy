/** The two URL-path accessors of Source/Network/StringExtension.swift: the
    application name (the first path component) and the play path (what
    follows "/<app>/"). Parsing the URL itself is Foundation's and is outside
    the model: both accessors start from the URL's path, absent when the
    string does not parse. Paths are taken to be ASCII, where the source's
    cross-string index arithmetic amounts to character offsets. */
module UrlPath {
  import opened Wire

  /** The text up to the first '/', or all of it. */
  function FirstComponent(s: string): (c: string)
    ensures c <= s && '/' !in c
    ensures |c| == |s| || s[|c|] == '/'
  {
    if |s| == 0 || s[0] == '/' then [] else [s[0]] + FirstComponent(s[1..])
  }

  /** `components(separatedBy: "/")`: the pieces between separators, one more
      than the number of separators. */
  function Components(s: string): (cs: seq<string>)
    ensures |cs| >= 1
  {
    if |s| == 0 then [""]
    else
      var rest := Components(s[1..]);
      if s[0] == '/' then [""] + rest else [[s[0]] + rest[0]] + rest[1..]
  }

  /** Pieces glued back together with '/' between them. */
  function Join(cs: seq<string>): string
    requires |cs| >= 1
  {
    if |cs| == 1 then cs[0] else cs[0] + "/" + Join(cs[1..])
  }

  /** No piece of the split holds a separator. */
  lemma {:induction false} ComponentsHaveNoSlash(s: string)
    ensures forall i :: 0 <= i < |Components(s)| ==> '/' !in Components(s)[i]
  {
    if |s| > 0 {
      ComponentsHaveNoSlash(s[1..]);
      var rest := Components(s[1..]);
      var cs := Components(s);
      if s[0] == '/' {
        assert cs[1..] == rest;
      } else {
        assert cs[1..] == rest[1..];
        assert '/' !in rest[0];
      }
    }
  }

  /** Splitting then joining gives back the text. */
  lemma {:induction false} JoinComponents(s: string)
    ensures Join(Components(s)) == s
  {
    if |s| > 0 {
      JoinComponents(s[1..]);
      var rest := Components(s[1..]);
      if s[0] == '/' {
        assert Join(Components(s)) == "" + "/" + Join(rest);
        assert s == [s[0]] + s[1..];
      } else {
        var cs := Components(s);
        assert cs[1..] == rest[1..];
        if |rest| == 1 {
          assert Join(cs) == [s[0]] + rest[0];
        } else {
          assert Join(cs) == ([s[0]] + rest[0]) + "/" + Join(rest[1..]);
          assert Join(rest) == rest[0] + "/" + Join(rest[1..]);
        }
        assert s == [s[0]] + s[1..];
      }
    }
  }

  /** The first piece of the split is the first component. */
  lemma {:induction false} FirstOfComponents(s: string)
    ensures Components(s)[0] == FirstComponent(s)
  {
    if |s| > 0 && s[0] != '/' {
      FirstOfComponents(s[1..]);
    }
  }

  /** One leading '/' removed, if there is one. */
  function DropLeadingSlash(path: string): string
  {
    if |path| > 0 && path[0] == '/' then path[1..] else path
  }

  /** `app`: absent only when the URL has no path; otherwise the first
      component after one leading '/'. */
  function App(path: Option<string>): (app: Option<string>)
    ensures app.Some? <==> path.Some?
    ensures path.Some? ==>
      var rest := DropLeadingSlash(path.value);
      && app.value <= rest && '/' !in app.value
      && (|app.value| == |rest| || rest[|app.value|] == '/')
  {
    match path
    case None => None
    case Some(p) =>
      FirstOfComponents(DropLeadingSlash(p));
      Some(Components(DropLeadingSlash(p))[0])
  }

  /** `playPath`: the path after "/<app>/", absent when the path does not
      start that way. */
  function PlayPath(path: Option<string>): (pp: Option<string>)
    ensures pp.Some? <==> path.Some? && "/" + App(path).value + "/" <= path.value
    ensures pp.Some? ==> "/" + App(path).value + "/" + pp.value == path.value
  {
    match path
    case None => None
    case Some(p) =>
      var appPath := "/" + App(path).value + "/";
      if appPath <= p then Some(p[|appPath|..]) else None
  }

  /** A path built from an application name and a play path parses back
      into those two parts. */
  lemma PathRoundTrip(app: string, playPath: string)
    requires '/' !in app
    ensures App(Some("/" + app + "/" + playPath)) == Some(app)
    ensures PlayPath(Some("/" + app + "/" + playPath)) == Some(playPath)
  {
    var p := "/" + app + "/" + playPath;
    assert DropLeadingSlash(p) == app + "/" + playPath;
    FirstOfComponents(app + "/" + playPath);
    FirstComponentOf(app, playPath);
    assert ("/" + app + "/" + playPath)[|"/" + app + "/"|..] == playPath;
  }

  /** The first component of "<a>/<rest>" is a when a holds no '/'. */
  lemma {:induction false} FirstComponentOf(a: string, rest: string)
    requires '/' !in a
    ensures FirstComponent(a + "/" + rest) == a
  {
    if |a| > 0 {
      assert (a + "/" + rest)[1..] == a[1..] + "/" + rest;
      FirstComponentOf(a[1..], rest);
    }
  }

  /** A path with only an application name has no play path. */
  lemma AppOnlyHasNoPlayPath(app: string)
    requires '/' !in app
    ensures App(Some("/" + app)) == Some(app)
    ensures PlayPath(Some("/" + app)) == None
  {
    assert DropLeadingSlash("/" + app) == app;
    FirstOfComponents(app);
    assert FirstComponent(app) == app by {
      NoSlashIsOneComponent(app);
    }
    assert |"/" + app + "/"| > |"/" + app|;
  }

  lemma {:induction false} NoSlashIsOneComponent(s: string)
    requires '/' !in s
    ensures FirstComponent(s) == s
  {
    if |s| > 0 {
      assert s == [s[0]] + s[1..];
      NoSlashIsOneComponent(s[1..]);
    }
  }
}
