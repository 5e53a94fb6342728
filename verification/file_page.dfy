/** The file download page: validating the request and composing the agent's download URL. */
module FilePage {
  import opened Options
  import opened Text
  import opened ServerTypes
  import Uri

  datatype FileToast = RequiredError | ServerNotFound | DownloadStarted

  function ToastKey(t: FileToast): string {
    match t
    case RequiredError => "file.error.required"
    case ServerNotFound => "file.error.serverNotFound"
    case DownloadStarted => "file.success.download"
  }

  /** A download attempt: the URL the page opens, if any, and the toast it shows. */
  datatype Download = Download(url: Option<string>, toast: FileToast)

  /** `${server.port}`: the number in decimal, or "undefined" when absent. */
  function RenderPort(port: Option<nat>): string {
    match port
    case Some(p) => NatToString(p)
    case None => "undefined"
  }

  /** The query string after `/download?`. */
  function Query(path: string, filename: string): string {
    "path=" + Uri.Encode(path) + (if filename != "" then "&filename=" + Uri.Encode(filename) else "")
  }

  /** `handleDownload`. */
  function HandleDownload(servers: seq<Server>, selected: string, path: string, filename: string): (r: Download)
    ensures (selected == "" || path == "") ==> r == Download(None, RequiredError)
    ensures selected != "" && path != "" && FindByCode(servers, selected).None? ==> r == Download(None, ServerNotFound)
    ensures r.url.Some? <==> selected != "" && path != "" && FindByCode(servers, selected).Some?
    ensures r.url.Some? <==> r.toast == DownloadStarted
    ensures r.url.Some? ==>
              var server := FindByCode(servers, selected).value;
              r.url.value == "http://" + server.ip + ":" + RenderPort(server.port) + "/download?" + Query(path, filename)
  {
    if selected == "" || path == "" then Download(None, RequiredError)
    else match FindByCode(servers, selected)
      case None => Download(None, ServerNotFound)
      case Some(server) =>
        Download(Some("http://" + server.ip + ":" + RenderPort(server.port) + "/download?" + Query(path, filename)),
                 DownloadStarted)
  }

  /** The text after the last `c` in `s` (all of `s` when there is none). */
  function AfterLast(s: string, c: char): string {
    if |s| == 0 then ""
    else if s[|s| - 1] == c then ""
    else AfterLast(s[..|s| - 1], c) + [s[|s| - 1]]
  }

  lemma {:induction false} AfterLastAppend(a: string, b: string, c: char)
    requires c !in b
    ensures AfterLast(a + [c] + b, c) == b
    decreases |b|
  {
    var s := a + [c] + b;
    if |b| == 0 {
      assert s[|s| - 1] == c;
    } else {
      assert s[..|s| - 1] == a + [c] + b[..|b| - 1];
      assert c !in b[..|b| - 1];
      AfterLastAppend(a, b[..|b| - 1], c);
      assert b[..|b| - 1] + [b[|b| - 1]] == b;
    }
  }

  lemma SafeHasNo(s: string, c: char)
    requires Uri.AllUriSafe(s) && !Uri.UriSafe(c)
    ensures c !in s
  {
  }

  /** A parameter `name=value` with a URI-safe value contains neither '?' nor '&'. */
  lemma ParamClean(name: string, value: string)
    requires '?' !in name && '&' !in name && Uri.AllUriSafe(value)
    ensures '?' !in name + value && '&' !in name + value
  {
    SafeHasNo(value, '?');
    SafeHasNo(value, '&');
  }

  lemma {:induction false} SplitQuery(prefix: string, p: string, f: Option<string>)
    requires '?' !in p && '&' !in p
    requires f.Some? ==> '?' !in f.value && '&' !in f.value
    ensures var q := if f.Some? then p + ['&'] + f.value else p;
            Split(AfterLast(prefix + ['?'] + q, '?'), '&') == [p] + (if f.Some? then [f.value] else [])
  {
    if f.None? {
      AfterLastAppend(prefix, p, '?');
      SplitNoSeparator(p, '&');
    } else {
      var q := p + ['&'] + f.value;
      assert '?' !in q;
      AfterLastAppend(prefix, q, '?');
      SplitAppend(p, f.value, '&');
      SplitNoSeparator(f.value, '&');
    }
  }

  lemma JoinParams(e: string, f: string)
    ensures "path=" + e + ("&filename=" + f) == ("path=" + e) + ['&'] + ("filename=" + f)
  {
    var amp, fname := "&filename=", "filename=";
    assert amp == ['&'] + fname;
    assert amp + f == ['&'] + (fname + f);
  }

  /** The query's two parameters joined by '&'. */
  lemma QueryNamedShape(path: string, filename: string)
    requires filename != ""
    ensures Query(path, filename) == ("path=" + Uri.Encode(path)) + ['&'] + ("filename=" + Uri.Encode(filename))
  {
    JoinParams(Uri.Encode(path), Uri.Encode(filename));
  }

  /** With a custom filename the query has two parameters. */
  lemma QueryPartsNamed(prefix: string, path: string, filename: string)
    requires filename != ""
    ensures Split(AfterLast(prefix + ['?'] + Query(path, filename), '?'), '&') ==
              ["path=" + Uri.Encode(path)] + ["filename=" + Uri.Encode(filename)]
  {
    var pname, fname := "path=", "filename=";
    assert '?' !in pname && '&' !in pname && '?' !in fname && '&' !in fname;
    var p, fv := pname + Uri.Encode(path), fname + Uri.Encode(filename);
    ParamClean(pname, Uri.Encode(path));
    ParamClean(fname, Uri.Encode(filename));
    QueryNamedShape(path, filename);
    SplitQuery(prefix, p, Some(fv));
  }

  /** Without one the query is the path parameter alone. */
  lemma QueryPartsUnnamed(prefix: string, path: string)
    ensures Split(AfterLast(prefix + ['?'] + Query(path, ""), '?'), '&') == ["path=" + Uri.Encode(path)]
  {
    var pname := "path=";
    assert '?' !in pname && '&' !in pname;
    var p := pname + Uri.Encode(path);
    ParamClean(pname, Uri.Encode(path));
    assert Query(path, "") == p;
    SplitQuery(prefix, p, None);
  }

  /** The query split back into its parameters, whatever precedes the '?'. */
  lemma QueryParts(prefix: string, path: string, filename: string)
    ensures Split(AfterLast(prefix + ['?'] + Query(path, filename), '?'), '&') ==
              ["path=" + Uri.Encode(path)] + (if filename != "" then ["filename=" + Uri.Encode(filename)] else [])
  {
    if filename != "" {
      QueryPartsNamed(prefix, path, filename);
    } else {
      QueryPartsUnnamed(prefix, path);
    }
  }

  /** Read back from the URL: whatever the server's ip contains, the query after the last '?' is
      split by '&' into exactly the path parameter, followed by the filename parameter precisely
      when a custom filename was given. */
  lemma QueryReadsBack(servers: seq<Server>, selected: string, path: string, filename: string)
    requires HandleDownload(servers, selected, path, filename).url.Some?
    ensures var url := HandleDownload(servers, selected, path, filename).url.value;
            Split(AfterLast(url, '?'), '&') ==
              ["path=" + Uri.Encode(path)] + (if filename != "" then ["filename=" + Uri.Encode(filename)] else [])
  {
    var server := FindByCode(servers, selected).value;
    var prefix := "http://" + server.ip + ":" + RenderPort(server.port) + "/download";
    var url := HandleDownload(servers, selected, path, filename).url.value;
    assert url == prefix + ['?'] + Query(path, filename);
    QueryParts(prefix, path, filename);
  }
}
