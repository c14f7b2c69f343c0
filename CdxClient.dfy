/** The offline part of the CDX client: turning a user's base URL into a CDX
    prefix pattern, reading the rows of a CDX JSON answer into capture records
    (first-seen deduplication by original URL, HTML only), and reading the single
    row that a "latest capture" query returns. The HTTP request is left out: the
    decoded JSON answer is the input. */
module CdxClient {
  import opened Strings
  import opened Wrappers
  import opened Url

  /** Where every Wayback Machine capture URL starts. */
  const WaybackPrefix: string := "https://web.archive.org/web/"

  /** The base URL with "https://" in front unless it already names http or https. */
  function WithScheme(baseUrl: string): (u: string)
    ensures StartsWith(u, "http://") || StartsWith(u, "https://")
    ensures EndsWith(u, baseUrl)
    ensures StartsWith(baseUrl, "http://") || StartsWith(baseUrl, "https://") ==> u == baseUrl
  {
    if StartsWith(baseUrl, "http://") || StartsWith(baseUrl, "https://") then baseUrl
    else "https://" + baseUrl
  }

  /** A URL made into a prefix pattern: unchanged when it already ends in '*',
      otherwise '*' after a trailing '/' and a slash and a star after anything else. */
  function Wildcard(u: string): (r: string)
    ensures StartsWith(r, u) && EndsWith(r, "*")
    ensures r == u || EndsWith(r, "/*")
    ensures r == u <==> EndsWith(u, "*")
  {
    if EndsWith(u, "*") then u
    else if EndsWith(u, "/") then u + "*"
    else u + "/*"
  }

  /** A pattern is a fixed point: preparing it again changes nothing. */
  lemma WildcardIdempotent(u: string)
    ensures Wildcard(Wildcard(u)) == Wildcard(u)
  {
  }

  /** `_prepare_url_pattern`: an empty base URL and one without a host are
      errors; otherwise the scheme-completed URL as a prefix pattern. */
  function PrepareUrlPattern(baseUrl: string): (r: Result<string>)
    ensures baseUrl == "" ==> r == Err("Base URL cannot be empty")
    ensures r.Ok? <==> baseUrl != "" && ParseUrl(WithScheme(baseUrl), "").Ok? && ParseUrl(WithScheme(baseUrl), "").value.netloc != ""
    ensures r.Ok? ==> StartsWith(r.value, WithScheme(baseUrl)) && EndsWith(r.value, "*")
  {
    if baseUrl == "" then Err("Base URL cannot be empty")
    else
      var u := WithScheme(baseUrl);
      match ParseUrl(u, "")
      case Err(e) => Err(e)
      case Ok(p) =>
        if p.netloc == "" then Err("Invalid URL: " + u)
        else Ok(Wildcard(u))
  }

  /** The pattern for a base URL that already names its scheme extends that URL
      by at most two characters, and extends it not at all when it already ends in '*'. */
  lemma PatternExtendsUrl(baseUrl: string)
    requires StartsWith(baseUrl, "http://") || StartsWith(baseUrl, "https://")
    requires PrepareUrlPattern(baseUrl).Ok?
    ensures var r := PrepareUrlPattern(baseUrl).value;
      r == baseUrl + r[|baseUrl|..] && |r| <= |baseUrl| + 2 && (EndsWith(baseUrl, "*") <==> r == baseUrl)
  {
  }

  /** One capture record of the CDX answer. */
  datatype Capture = Capture(url: string, timestamp: string, waybackUrl: string, statusCode: string, mimeType: string)

  /** The Wayback Machine URL of the capture of `url` at `timestamp`. */
  function WaybackUrl(timestamp: string, url: string): (r: string)
    ensures StartsWith(r, WaybackPrefix) && EndsWith(r, url)
  {
    WaybackPrefix + timestamp + "/" + url
  }

  /** Capture URLs name their capture: two of them with '/'-free timestamps are
      equal only for the same timestamp and the same original URL. */
  lemma WaybackUrlInjective(ts1: string, url1: string, ts2: string, url2: string)
    requires '/' !in ts1 && '/' !in ts2
    requires WaybackUrl(ts1, url1) == WaybackUrl(ts2, url2)
    ensures ts1 == ts2 && url1 == url2
  {
    var n := |WaybackPrefix|;
    var x := WaybackUrl(ts1, url1)[n..];
    var y := WaybackUrl(ts2, url2)[n..];
    assert x == ts1 + "/" + url1 && y == ts2 + "/" + url2;
    assert StartsWith(x, ts1 + ['/']) && StartsWith(y, ts2 + ['/']) by {
      assert x[..|ts1| + 1] == ts1 + ['/'];
      assert y[..|ts2| + 1] == ts2 + ['/'];
    }
    if ts1 != ts2 {
      DistinctHeads(x, y, ts1, ts2, '/');
    }
    assert url1 == x[|ts1| + 1..] && url2 == y[|ts2| + 1..];
  }

  /** A row with the four expected fields: timestamp, original, statuscode, mimetype. */
  predicate Long(row: seq<string>) {
    |row| >= 4
  }

  predicate IsHtml(row: seq<string>)
    requires Long(row)
  {
    StartsWith(row[3], "text/html")
  }

  /** The record built from a row's first four fields. */
  function CaptureOf(row: seq<string>): (c: Capture)
    requires Long(row)
    ensures c.url == row[1] && c.timestamp == row[0] && c.statusCode == row[2] && c.mimeType == row[3]
    ensures c.waybackUrl == WaybackUrl(c.timestamp, c.url)
  {
    Capture(row[1], row[0], WaybackUrl(row[0], row[1]), row[2], row[3])
  }

  /** The records kept from `rows` when the URLs in `seen` were met before: short
      rows are skipped, a URL met before is skipped, a new URL is marked as met and
      then kept only when its MIME type starts with "text/html". */
  function Kept(rows: seq<seq<string>>, seen: set<string>): (r: seq<Capture>)
    ensures forall k :: 0 <= k < |r| ==>
      StartsWith(r[k].mimeType, "text/html") && r[k].waybackUrl == WaybackUrl(r[k].timestamp, r[k].url) && r[k].url !in seen
    ensures forall j, k :: 0 <= j < k < |r| ==> r[j].url != r[k].url
    decreases |rows|
  {
    if rows == [] then []
    else
      var row := rows[0];
      if !Long(row) || row[1] in seen then Kept(rows[1..], seen)
      else if !IsHtml(row) then Kept(rows[1..], seen + {row[1]})
      else [CaptureOf(row)] + Kept(rows[1..], seen + {row[1]})
  }

  /** Row `i` is the first row with four fields whose original URL is `url`. */
  predicate FirstFor(rows: seq<seq<string>>, i: int, url: string) {
    && 0 <= i < |rows| && Long(rows[i]) && rows[i][1] == url
    && forall j :: 0 <= j < i ==> !(Long(rows[j]) && rows[j][1] == url)
  }

  /** The first row for a URL, seen from the second row on. */
  lemma FirstForTail(rows: seq<seq<string>>, i: int, url: string)
    requires |rows| > 0 && !(Long(rows[0]) && rows[0][1] == url)
    ensures FirstFor(rows, i, url) <==> FirstFor(rows[1..], i - 1, url)
  {
    if FirstFor(rows[1..], i - 1, url) {
      forall j | 0 <= j < i
        ensures !(Long(rows[j]) && rows[j][1] == url)
      {
        if j > 0 {
          assert rows[j] == rows[1..][j - 1];
        }
      }
    }
    if FirstFor(rows, i, url) {
      assert i > 0;
      forall j | 0 <= j < i - 1
        ensures !(Long(rows[1..][j]) && rows[1..][j][1] == url)
      {
        assert rows[1..][j] == rows[j + 1];
      }
    }
  }

  /** Every kept record comes from the first row with its URL, an HTML row. */
  lemma {:induction false} KeptFromFirstRow(rows: seq<seq<string>>, seen: set<string>, k: nat) returns (i: nat)
    requires k < |Kept(rows, seen)|
    ensures FirstFor(rows, i, Kept(rows, seen)[k].url) && IsHtml(rows[i])
    ensures Kept(rows, seen)[k] == CaptureOf(rows[i])
    decreases |rows|, 1
  {
    var row := rows[0];
    if !Long(row) || row[1] in seen {
      i := KeptFromShift(rows, seen, k);
    } else if !IsHtml(row) {
      i := KeptFromShift(rows, seen + {row[1]}, k);
    } else if k == 0 {
      i := 0;
    } else {
      var more := Kept(rows[1..], seen + {row[1]});
      assert Kept(rows, seen) == [CaptureOf(row)] + more;
      i := KeptFromShift(rows, seen + {row[1]}, k - 1);
    }
  }

  /** The same for a record kept from the rows after the first, when the first
      row's URL counts as met. */
  lemma {:induction false} KeptFromShift(rows: seq<seq<string>>, seen': set<string>, k: nat) returns (i: nat)
    requires |rows| > 0 && k < |Kept(rows[1..], seen')|
    requires Long(rows[0]) ==> rows[0][1] in seen'
    ensures FirstFor(rows, i, Kept(rows[1..], seen')[k].url) && IsHtml(rows[i])
    ensures Kept(rows[1..], seen')[k] == CaptureOf(rows[i])
    decreases |rows|, 0
  {
    var u := Kept(rows[1..], seen')[k].url;
    var i' := KeptFromFirstRow(rows[1..], seen', k);
    FirstForTail(rows, i' + 1, u);
    i := i' + 1;
  }

  /** The first row for a URL not met before is kept when it is an HTML row. */
  lemma {:induction false} FirstHtmlRowKept(rows: seq<seq<string>>, seen: set<string>, i: nat)
    requires i < |rows| && Long(rows[i]) && FirstFor(rows, i, rows[i][1]) && IsHtml(rows[i]) && rows[i][1] !in seen
    ensures CaptureOf(rows[i]) in Kept(rows, seen)
    decreases |rows|
  {
    var u := rows[i][1];
    var row := rows[0];
    var rest := rows[1..];
    if i > 0 {
      assert !(Long(row) && row[1] == u);
      FirstForTail(rows, i, u);
      assert rest[i - 1] == rows[i];
      var seen' := if !Long(row) || row[1] in seen then seen else seen + {row[1]};
      FirstHtmlRowKept(rest, seen', i - 1);
    }
  }

  /** A URL is among the kept records exactly when its first row is an HTML row;
      so a first row of another type hides every later HTML row of that URL. */
  lemma KeptIffFirstHtml(rows: seq<seq<string>>, url: string)
    ensures (exists k :: 0 <= k < |Kept(rows, {})| && Kept(rows, {})[k].url == url)
        <==> (exists i :: FirstFor(rows, i, url) && IsHtml(rows[i]))
  {
    var out := Kept(rows, {});
    if k :| 0 <= k < |out| && out[k].url == url {
      var i := KeptFromFirstRow(rows, {}, k);
    }
    if i :| FirstFor(rows, i, url) && IsHtml(rows[i]) {
      FirstHtmlRowKept(rows, {}, i);
      var k :| 0 <= k < |out| && out[k] == CaptureOf(rows[i]);
      assert out[k].url == url;
    }
  }

  /** The kept records follow the order of their rows. */
  lemma KeptInRowOrder(rows: seq<seq<string>>, j: nat, k: nat) returns (a: nat, b: nat)
    requires j < k < |Kept(rows, {})|
    ensures a < b
    ensures FirstFor(rows, a, Kept(rows, {})[j].url) && FirstFor(rows, b, Kept(rows, {})[k].url)
  {
    a := KeptFromFirstRow(rows, {}, j);
    b := KeptFromFirstRow(rows, {}, k);
    if b <= a {
      KeptOrderStep(rows, {}, j, k, a, b);
    }
  }

  /** Rows met in order yield records in order. */
  lemma {:induction false} KeptOrderStep(rows: seq<seq<string>>, seen: set<string>, j: nat, k: nat, a: nat, b: nat)
    requires j < k < |Kept(rows, seen)|
    requires FirstFor(rows, a, Kept(rows, seen)[j].url) && FirstFor(rows, b, Kept(rows, seen)[k].url)
    ensures a < b
    decreases |rows|
  {
    var out := Kept(rows, seen);
    var row := rows[0];
    var u, v := out[j].url, out[k].url;
    if Long(row) && row[1] !in seen && IsHtml(row) {
      var more := Kept(rows[1..], seen + {row[1]});
      assert out == [CaptureOf(row)] + more;
      if j == 0 {
        HeadFirst(rows, a, u);
        assert b != 0;
      } else {
        KeptOrderShift(rows, seen + {row[1]}, j - 1, k - 1, a, b);
      }
    } else if Long(row) && row[1] !in seen {
      KeptOrderShift(rows, seen + {row[1]}, j, k, a, b);
    } else {
      KeptOrderShift(rows, seen, j, k, a, b);
    }
  }

  /** A URL whose first row is the very first row. */
  lemma HeadFirst(rows: seq<seq<string>>, a: nat, url: string)
    requires |rows| > 0 && Long(rows[0]) && rows[0][1] == url && FirstFor(rows, a, url)
    ensures a == 0
  {
  }

  /** The order step for records that come from the rows after the first. */
  lemma {:induction false} KeptOrderShift(rows: seq<seq<string>>, seen': set<string>, j: nat, k: nat, a: nat, b: nat)
    requires |rows| > 0 && j < k < |Kept(rows[1..], seen')|
    requires Long(rows[0]) ==> rows[0][1] in seen'
    requires FirstFor(rows, a, Kept(rows[1..], seen')[j].url) && FirstFor(rows, b, Kept(rows[1..], seen')[k].url)
    ensures a < b
    decreases |rows|, 0
  {
    var more := Kept(rows[1..], seen');
    var u, v := more[j].url, more[k].url;
    FirstForTail(rows, a, u);
    FirstForTail(rows, b, v);
    KeptOrderStep(rows[1..], seen', j, k, a - 1, b - 1);
  }

  /** `_parse_cdx_response` as a value: no rows or only the header give no
      records, a header of fewer than four columns is an error, otherwise the
      records kept from the data rows. */
  function Parsed(data: seq<seq<string>>): (r: Result<seq<Capture>>)
    ensures |data| < 2 ==> r == Ok([])
    ensures r.Err? <==> |data| >= 2 && |data[0]| < 4
  {
    if |data| < 2 then Ok([])
    else if |data[0]| < 4 then Err("Unexpected CDX response format: insufficient columns")
    else Ok(Kept(data[1..], {}))
  }

  /** `_parse_cdx_response`: one pass over the data rows that appends to a list
      and adds to a set of URLs met so far. */
  method ParseCdxResponse(data: seq<seq<string>>) returns (r: Result<seq<Capture>>)
    ensures r == Parsed(data)
  {
    if |data| == 0 {
      return Ok([]);
    }
    if |data| < 2 {
      return Ok([]);
    }
    var headers := data[0];
    var rows := data[1..];
    if |headers| < 4 {
      return Err("Unexpected CDX response format: insufficient columns");
    }
    var urls: seq<Capture> := [];
    var seenUrls: set<string> := {};
    var i := 0;
    while i < |rows|
      invariant 0 <= i <= |rows|
      invariant urls + Kept(rows[i..], seenUrls) == Kept(rows, {})
      decreases |rows| - i
    {
      var row := rows[i];
      assert rows[i..][0] == row && rows[i..][1..] == rows[i + 1..];
      if |row| < 4 {
        i := i + 1;
        continue;
      }
      var timestamp, originalUrl, statusCode, mimeType := row[0], row[1], row[2], row[3];
      if originalUrl in seenUrls {
        i := i + 1;
        continue;
      }
      seenUrls := seenUrls + {originalUrl};
      if !StartsWith(mimeType, "text/html") {
        i := i + 1;
        continue;
      }
      var waybackUrl := WaybackPrefix + timestamp + "/" + originalUrl;
      var capture := Capture(originalUrl, timestamp, waybackUrl, statusCode, mimeType);
      assert capture == CaptureOf(row);
      urls := urls + [capture];
      i := i + 1;
    }
    assert rows[i..] == [];
    assert urls + [] == urls;
    r := Ok(urls);
  }

  /** The row handling of `get_latest_capture`: nothing without a data row or
      when the first data row is short, otherwise the record of that row. The
      MIME type is not checked here (the query itself asks for status 200). */
  function LatestCapture(data: seq<seq<string>>): (r: Option<Capture>)
    ensures r.Some? <==> |data| >= 2 && Long(data[1])
    ensures r.Some? ==> (r.value.url == data[1][1] && r.value.timestamp == data[1][0]
      && r.value.waybackUrl == WaybackUrl(data[1][0], data[1][1]))
  {
    if |data| < 2 then None
    else
      var row := data[1];
      if |row| < 4 then None
      else Some(CaptureOf(row))
  }

  /** When the header is complete and the first data row is an HTML row, the
      latest capture is the first record the full parse keeps. */
  lemma LatestIsFirstParsed(data: seq<seq<string>>)
    requires |data| >= 2 && |data[0]| >= 4 && Long(data[1]) && IsHtml(data[1])
    ensures Parsed(data).Ok? && |Parsed(data).value| > 0
    ensures Parsed(data).value[0] == LatestCapture(data).value
  {
    var rows := data[1..];
    assert rows[0] == data[1];
  }
}
