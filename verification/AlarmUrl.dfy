// Alarm URLs: the printer (apmec/mem/monitor_drivers/ceilometer/ceilometer.py,
// _create_alarm_url) and the receiver that reads them (apmec/alarm_receiver.py, handle_url),
// with the parts of urlparse and unquote they rely on.
module AlarmUrl {
  import opened Wrappers
  import opened Text

  // ---- Splitting a URL ----

  // The part of s before the first stop.
  function CutBefore(s: string, stops: set<char>): (r: string)
    ensures r <= s
    ensures forall i | 0 <= i < |r| :: r[i] !in stops
    ensures |r| < |s| ==> s[|r|] in stops
  {
    if s == "" || s[0] in stops then "" else [s[0]] + CutBefore(s[1..], stops)
  }

  // The last segment of a path loses its parameters, which a semicolon opens.
  function StripParams(path: string): (r: string)
    ensures r <= path
  {
    if '/' in path then [path[0]] + StripParams(path[1..]) else CutBefore(path, {';'})
  }

  predicate IsHttp(url: string) {
    "http://" <= url || "https://" <= url
  }

  // urlparse(url).path: what follows the host, without query, fragment and parameters.
  function UrlPath(url: string): string
    requires IsHttp(url)
  {
    var rest := if "http://" <= url then url[7..] else url[8..];
    var host := CutBefore(rest, {'/', '?', '#'});
    StripParams(CutBefore(rest[|host|..], {'?', '#'}))
  }

  // ---- Percent encoding (section 2.1 of RFC 3986) ----

  function HexValue(c: char): Option<int> {
    if '0' <= c <= '9' then Some(c as int - '0' as int)
    else if 'a' <= c <= 'f' then Some(c as int - 'a' as int + 10)
    else if 'A' <= c <= 'F' then Some(c as int - 'A' as int + 10)
    else None
  }

  predicate StartsWithHex(s: string) {
    |s| >= 2 && HexValue(s[0]).Some? && HexValue(s[1]).Some?
  }

  predicate Escaped(s: string) {
    s != "" && s[0] == '%' && StartsWithHex(s[1..])
  }

  function Unquote(s: string): string {
    if s == "" then ""
    else if Escaped(s) then
      HexBounds(s[1]); HexBounds(s[2]);
      [(HexValue(s[1]).value * 16 + HexValue(s[2]).value) as char] + Unquote(s[3..])
    else [s[0]] + Unquote(s[1..])
  }

  lemma HexBounds(c: char)
    ensures HexValue(c).Some? ==> 0 <= HexValue(c).value < 16
  {
  }

  predicate HasEscape(s: string) {
    s != "" && (Escaped(s) || HasEscape(s[1..]))
  }

  // Unquoting changes a string exactly when it holds an escape, and then shortens it.
  lemma {:induction false} UnquoteShortens(s: string)
    ensures if HasEscape(s) then |Unquote(s)| < |s| else Unquote(s) == s
  {
    if Escaped(s) {
      UnquoteShortens(s[3..]);
    } else if s != "" {
      UnquoteShortens(s[1..]);
    }
  }

  // ---- Printer and receiver ----

  function Names(mea: string, trigger: string, action: string, key: string): string {
    mea + "/" + (trigger + "/" + (action + "/" + key))
  }

  function Host(host: string, port: string): string {
    host + ":" + port
  }

  function CreateAlarmUrl(host: string, port: string, mea: string, trigger: string, action: string, key: string)
    : string
  {
    "http://" + Host(host, port) + "/v1.0/meas" + "/" + Names(mea, trigger, action, key)
  }

  function Segments(mea: string, trigger: string, action: string, key: string): seq<string> {
    ["", "v1.0", "meas", mea, trigger, action, key]
  }

  // The segments the receiver reads from a URL, if it takes it for an alarm.
  function Received(url: string): Option<seq<string>>
    requires IsHttp(url)
  {
    var p := Split(UrlPath(url), '/');
    if |p| == 7 && p[0] == "" && p[2] == "meas" then Some(p[5 := Unquote(p[5])]) else None
  }

  method HandleUrl(url: string) returns (result: Option<(string, seq<string>)>)
    requires IsHttp(url)
    ensures match Received(url)
            case None => result == None
            case Some(p) => result == Some(("/meas/" + p[3] + "/", p))
  {
    var p := Split(UrlPath(url), '/');
    if |p| != 7 {
      return None;
    }
    if p[0] != "" || p[2] != "meas" {
      return None;
    }
    p := p[5 := Unquote(p[5])];
    assert "/" + p[2] + "/" == "/meas/";
    return Some(("/" + p[2] + "/" + p[3] + "/", p));
  }

  predicate Plain(s: string) {
    Free(s, '/') && Free(s, '?') && Free(s, '#')
  }

  // A URL with these segments for its path.
  ghost predicate Prints(url: string, segments: seq<string>) {
    && IsHttp(url) && |segments| == 7 && segments[0] == "" && segments[2] == "meas"
    && UrlPath(url) == StripParams(CutBefore(Join(segments, '/'), {'?', '#'}))
  }

  lemma UrlPrints(host: string, port: string, mea: string, trigger: string, action: string, key: string)
    requires Plain(host) && Plain(port)
    ensures Prints(CreateAlarmUrl(host, port, mea, trigger, action, key), Segments(mea, trigger, action, key))
  {
    PathText(mea, trigger, action, key);
    PathStarts(Host(host, port), Names(mea, trigger, action, key));
  }

  lemma PathStarts(host: string, names: string)
    requires Plain(host)
    ensures var url := "http://" + host + "/v1.0/meas" + "/" + names;
            IsHttp(url) && UrlPath(url) == StripParams(CutBefore("/v1.0/meas" + "/" + names, {'?', '#'}))
  {
    var url := "http://" + host + "/v1.0/meas" + "/" + names;
    var path := "/v1.0/meas" + "/" + names;
    assert url == "http://" + (host + path);
    assert url[7..] == host + path;
    CutAt(host, path, {'/', '?', '#'});
  }

  lemma NamesText(mea: string, trigger: string, action: string, key: string)
    ensures Join([mea, trigger, action, key], '/') == Names(mea, trigger, action, key)
  {
    JoinCons(action, [key], '/');
    JoinCons(trigger, [action, key], '/');
    JoinCons(mea, [trigger, action, key], '/');
    assert [mea, trigger, action, key] == [mea] + [trigger, action, key];
    assert [trigger, action, key] == [trigger] + [action, key];
    assert [action, key] == [action] + [key];
  }

  lemma PathText(mea: string, trigger: string, action: string, key: string)
    ensures Join(Segments(mea, trigger, action, key), '/') == "/v1.0/meas" + "/" + Names(mea, trigger, action, key)
  {
    NamesText(mea, trigger, action, key);
    var names := [mea, trigger, action, key];
    var s := Segments(mea, trigger, action, key);
    assert s == ["", "v1.0", "meas"] + names;
    PathJoin(names);
  }

  lemma PathJoin(names: seq<string>)
    requires |names| > 0
    ensures Join(["", "v1.0", "meas"] + names, '/') == "/v1.0/meas" + "/" + Join(names, '/')
  {
    JoinCons("meas", names, '/');
    JoinCons("v1.0", ["meas"] + names, '/');
    JoinCons("", ["v1.0"] + (["meas"] + names), '/');
    assert ["", "v1.0", "meas"] + names == [""] + (["v1.0"] + (["meas"] + names));
    Regroup(Join(names, '/'));
  }

  lemma Regroup(names: string)
    ensures "" + "/" + ("v1.0" + "/" + ("meas" + "/" + names)) == "/v1.0/meas" + "/" + names
  {
  }

  lemma {:induction false} CutAt(a: string, b: string, stops: set<char>)
    requires forall i | 0 <= i < |a| :: a[i] !in stops
    requires b == "" || b[0] in stops
    ensures CutBefore(a + b, stops) == a
  {
    if a == "" {
      assert a + b == b;
    } else {
      CutAt(a[1..], b, stops);
      assert (a + b)[1..] == a[1..] + b;
    }
  }

  // Parameters are stripped exactly when the last segment holds a semicolon.
  lemma {:induction false} StripParamsExactly(parts: seq<string>)
    requires |parts| > 0 && AllFree(parts, '/')
    ensures StripParams(Join(parts, '/')) == Join(parts, '/') <==> Free(parts[|parts| - 1], ';')
  {
    if |parts| > 1 {
      StripParamsExactly(parts[1..]);
      SkipSegment(parts[0], Join(parts[1..], '/'));
    }
  }

  lemma {:induction false} SkipSegment(a: string, b: string)
    requires Free(a, '/')
    ensures StripParams(a + ['/'] + b) == a + ['/'] + StripParams(b)
  {
    var s := a + ['/'] + b;
    assert s[|a|] == '/';
    if a == "" {
      assert s[1..] == b;
    } else {
      assert s[1..] == a[1..] + ['/'] + b;
      SkipSegment(a[1..], b);
    }
  }

  lemma {:induction false} JoinLength(parts: seq<string>, i: nat, s: string, c: char)
    requires i < |parts|
    ensures |Join(parts[i := s], c)| == |Join(parts, c)| - |parts[i]| + |s|
  {
    if |parts| > 1 {
      if i == 0 {
        assert parts[i := s][1..] == parts[1..];
      } else {
        assert parts[i := s][1..] == parts[1..][i - 1 := s];
        JoinLength(parts[1..], i - 1, s, c);
      }
    }
  }

  // No segment holds one of / ? #, the last holds no semicolon, and the action holds nothing
  // that looks like an escape.
  ghost predicate Clean(segments: seq<string>) {
    && |segments| == 7
    && (forall i | 0 <= i < 7 :: Plain(segments[i]))
    && Free(segments[6], ';') && !HasEscape(segments[5])
  }

  // The receiver reads back what was printed exactly when the segments are clean.
  lemma ReadBackExactly(host: string, port: string, mea: string, trigger: string, action: string, key: string)
    requires Plain(host) && Plain(port)
    ensures var url := CreateAlarmUrl(host, port, mea, trigger, action, key);
            var segments := Segments(mea, trigger, action, key);
            IsHttp(url) && (Received(url) == Some(segments) <==> Clean(segments))
  {
    UrlPrints(host, port, mea, trigger, action, key);
    var url := CreateAlarmUrl(host, port, mea, trigger, action, key);
    var segments := Segments(mea, trigger, action, key);
    PrintedReadBack(url, segments);
  }

  lemma PrintedReadBack(url: string, segments: seq<string>)
    requires Prints(url, segments)
    ensures Received(url) == Some(segments) <==> Clean(segments)
  {
    if Clean(segments) {
      CleanReadsBack(url, segments);
    }
    if Received(url) == Some(segments) {
      ReadBackIsClean(url, segments);
    }
  }

  lemma CleanReadsBack(url: string, segments: seq<string>)
    requires Prints(url, segments) && Clean(segments)
    ensures Received(url) == Some(segments)
  {
    var path := Join(segments, '/');
    JoinHolds(segments, '/', '?');
    JoinHolds(segments, '/', '#');
    CutAt(path, "", {'?', '#'});
    assert path + "" == path;
    assert AllFree(segments, '/');
    StripParamsExactly(segments);
    SplitJoin(segments, '/');
    UnquoteShortens(segments[5]);
    assert segments[5 := segments[5]] == segments;
  }

  lemma ReadBackIsClean(url: string, segments: seq<string>)
    requires Prints(url, segments) && Received(url) == Some(segments)
    ensures Clean(segments)
  {
    NothingDecoded(url, segments);
    NothingCut(url, segments);
    SplitIsFree(UrlPath(url), '/');
  }

  // Decoding would have made the path too long.
  lemma NothingDecoded(url: string, segments: seq<string>)
    requires Prints(url, segments) && Received(url) == Some(segments)
    ensures Split(UrlPath(url), '/') == segments && !HasEscape(segments[5])
  {
    var p := Split(UrlPath(url), '/');
    JoinSplit(UrlPath(url), '/');
    JoinLength(segments, 5, p[5], '/');
    assert p == segments[5 := p[5]];
    UnquoteShortens(p[5]);
  }

  // And then nothing can have been cut off.
  lemma NothingCut(url: string, segments: seq<string>)
    requires Prints(url, segments) && Split(UrlPath(url), '/') == segments
    ensures forall i | 0 <= i < 7 :: Free(segments[i], '?') && Free(segments[i], '#')
    ensures Free(segments[6], ';')
  {
    var path := Join(segments, '/');
    JoinSplit(UrlPath(url), '/');
    assert UrlPath(url) == path == CutBefore(path, {'?', '#'});
    JoinHolds(segments, '/', '?');
    JoinHolds(segments, '/', '#');
    SplitIsFree(path, '/');
    StripParamsExactly(segments);
  }
}
