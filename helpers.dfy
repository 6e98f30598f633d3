/** The pure helpers the views rest on (news_app/helpers.py): time arithmetic,
    the URL fix-up applied to submissions, the `next` parameter of paginated
    lists and page clamping. Times are whole seconds. */
module Helpers {
  import opened Wrappers
  import opened PyStr
  import opened UrlLib

  const SECONDS_PER_DAY: nat := 86400

  /** A `datetime.timedelta`: Python keeps `0 <= seconds < 86400` and carries
      the rest into `days`. */
  datatype Timedelta = Timedelta(days: int, seconds: int)

  function MakeTimedelta(days: int, seconds: int): (td: Timedelta)
    ensures 0 <= td.seconds < SECONDS_PER_DAY
    ensures td.days * SECONDS_PER_DAY + td.seconds == days * SECONDS_PER_DAY + seconds
  {
    Timedelta(days + seconds / SECONDS_PER_DAY, seconds % SECONDS_PER_DAY)
  }

  function TotalSeconds(td: Timedelta): int {
    td.days * SECONDS_PER_DAY + td.seconds
  }

  /** `datetime_ago(weeks, days, hours, minutes, seconds)` at time `now`:
      the moment that lies the given span before `now`. */
  function DatetimeAgo(now: int, weeks: int, days: int, hours: int, minutes: int, seconds: int): (r: int)
    ensures now - r == (weeks * 7 + days) * SECONDS_PER_DAY + hours * 3600 + minutes * 60 + seconds
  {
    now - TotalSeconds(MakeTimedelta(weeks * 7 + days, hours * 3600 + minutes * 60 + seconds))
  }

  /** `improve_url`: a non-empty URL without a scheme gets `http://` in front;
      `None` where `urlparse` raises `ValueError` on the URL. */
  function ImproveUrl(url: string): (r: Option<string>)
    ensures url == "" ==> r == Some("")
    ensures url != "" ==> (r.None? <==> UrlParse(url).None?)
    ensures r.Some? && UrlFields(url).scheme != "" ==> r.value == url
    ensures r.Some? && url != "" && UrlFields(url).scheme == "" ==> r.value == "http://" + url
  {
    if url == "" then Some(url)
    else
      match UrlParse(url)
      case None => None
      case Some(parts) => Some(if parts.scheme == "" then "http://" + url else url)
  }

  /** After `improve_url` every non-empty URL has a scheme. */
  lemma ImproveUrlHasScheme(url: string)
    requires url != ""
    ensures ImproveUrl(url).Some? ==> UrlFields(ImproveUrl(url).value).scheme != ""
  {
    if UrlFields(url).scheme == "" {
      var r := "http://" + url;
      assert r[..7] == "http://";
      HttpUrlParts(r);
    }
  }

  /** Improving an improved URL changes nothing more, unless `urlparse` raises
      on the `http://` form (as on `[::1`, whose `http://[::1` has an open bracket). */
  lemma ImproveUrlIdempotent(url: string)
    ensures ImproveUrl(url).Some? ==>
      ImproveUrl(ImproveUrl(url).value) == if UrlParse(ImproveUrl(url).value).Some? then ImproveUrl(url) else None
  {
    if url != "" {
      ImproveUrlHasScheme(url);
    }
  }

  /** A URL that already starts with `http://` is kept as it is. */
  lemma ImproveUrlKeepsScheme(host: string)
    requires forall k | 0 <= k < |host| :: !IsNetlocEnd(host[k])
    requires !UnbalancedBrackets(host)
    ensures ImproveUrl("http://" + host) == Some("http://" + host)
  {
    var u := "http://" + host;
    assert StartsWith(u, "http://") by { assert u[..7] == "http://"; }
    HttpUrlParts(u);
    UrlParseRaisesOnHost(host);
  }

  /** Text with no colon, such as `google.com`, gets the `http://` prefix. */
  lemma ImproveUrlAddsScheme(url: string)
    requires url != "" && ':' !in url && !StartsWith(url, "//")
    ensures ImproveUrl(url) == Some("http://" + url)
  {
    assert SchemeAndRest(url) == ("", url);
    SchemeOfUrlParse(url);
    assert !(|url| >= 2 && url[..2] == "//");
  }

  /** `get_next_with_pages(url, page)`: the list's own URL on page 1, and
      otherwise the form-encoded `url?page=N` (the value of a `next`
      parameter, with `next=` cut off). */
  function GetNextWithPages(url: string, page: int): (r: string)
    requires IsByteString(url)
    ensures page == 1 ==> r == url
    ensures page != 1 ==> r == QuotePlus(url + "?page=" + IntToString(page))
    ensures page != 1 ==> UnquotePlus(r) == url + "?page=" + IntToString(page)
  {
    var target := url + "?page=" + IntToString(page);
    PageTargetIsByteString(url, page);
    if page == 1 then url
    else
      UrlencodeNext(target);
      UnquotePlusQuotePlus(target);
      Urlencode("next", target)[5..]
  }

  /** The text `url?page=N` stays within bytes when `url` does. */
  lemma PageTargetIsByteString(url: string, page: int)
    requires IsByteString(url)
    ensures IsByteString(url + "?page=" + IntToString(page))
  {
    var n := IntToString(page);
    assert forall k | 0 <= k < |n| :: n[k] == '-' || IsDigit(n[k]);
    var target := url + "?page=" + n;
    assert forall k | 0 <= k < |target| :: target[k] == (if k < |url| then url[k] else if k < |url| + 6 then "?page="[k - |url|] else n[k - |url| - 6]);
  }

  /** Cutting `next=` off `urlencode({'next': v})` leaves the encoded value. */
  lemma UrlencodeNext(value: string)
    requires IsByteString(value)
    ensures |Urlencode("next", value)| >= 5 && Urlencode("next", value)[5..] == QuotePlus(value)
  {
    assert QuotePlus("next") == "next";
  }

  lemma QuotePlusPageParameter()
    ensures QuotePlus("?page=") == "%3F" + "page" + "%3D"
  {
    assert "?page=" == "?" + "page" + "=";
    QuotePlusAppend("?", "page");
    QuotePlusAppend("?" + "page", "=");
    QuotePlusPieces();
  }

  /** The pieces of a page link, form-encoded one by one. */
  lemma QuotePlusPieces()
    ensures QuotePlus("/") == "%2F" && QuotePlus("?") == "%3F" && QuotePlus("=") == "%3D"
    ensures QuotePlus("page") == "page" && QuotePlus("2") == "2"
  {
    QuotePlusOneChar('/');
    QuotePlusOneChar('?');
    QuotePlusOneChar('=');
    QuotePlusOneChar('2');
    assert QuoteChar('/') == "%2F" && QuoteChar('?') == "%3F" && QuoteChar('=') == "%3D";
    QuotePlusSafe("page");
  }

  lemma QuotePlusOneChar(c: char)
    requires c as int < 256
    ensures QuotePlus([c]) == QuoteChar(c)
  {
    assert [c][1..] == [];
  }

  /** Letters, digits and `_.-` are left as they are. */
  lemma {:induction false} QuotePlusSafe(s: string)
    requires forall i | 0 <= i < |s| :: AlwaysSafe(s[i])
    ensures IsByteString(s) && QuotePlus(s) == s
  {
    if s != [] {
      QuotePlusSafe(s[1..]);
      assert s == [s[0]] + s[1..];
    }
  }

  /** The first page needs no page parameter: `get_next_with_pages('/', 1) == '/'`. */
  lemma GetNextWithPagesFirstPage(url: string)
    requires url == "/"
    ensures GetNextWithPages(url, 1) == "/"
  {
  }

  lemma RegroupFive<T>(a: seq<T>, b: seq<T>, c: seq<T>, d: seq<T>, e: seq<T>)
    ensures (a + ((b + c) + d)) + e == a + b + c + d + e
  {
  }

  /** Form-encoding the front page's URL with the page parameter in front of the number. */
  lemma QuotePlusRootPageParameter()
    ensures QuotePlus("/" + "?page=") == "%2F" + ("%3F" + "page" + "%3D")
  {
    QuotePlusAppend("/", "?page=");
    QuotePlusPageParameter();
    QuotePlusPieces();
  }

  /** Form-encoding the page-2 link of the front page, piece by piece. */
  lemma QuotePlusSecondPageLink()
    ensures QuotePlus("/" + "?page=" + "2") == "%2F" + "%3F" + "page" + "%3D" + "2"
  {
    QuotePlusAppend("/" + "?page=", "2");
    QuotePlusRootPageParameter();
    QuotePlusPieces();
    RegroupFive("%2F", "%3F", "page", "%3D", "2");
  }

  /** `get_next_with_pages('/', 2) == '%2F%3Fpage%3D2'`. */
  lemma GetNextWithPagesSecondPage(url: string, page: int)
    requires url == "/" && page == 2
    ensures GetNextWithPages(url, page) == "%2F" + "%3F" + "page" + "%3D" + "2"
  {
    assert IntToString(page) == "2";
    QuotePlusSecondPageLink();
  }

  /** `get_pagenum(request)`: the `page` query parameter as a number, 1 when it
      is missing or is not an integer. */
  function GetPagenum(get: map<string, string>): (page: int)
    ensures "page" !in get ==> page == 1
    ensures "page" in get && ParseInt(get["page"]).Some? ==> page == ParseInt(get["page"]).value
    ensures "page" in get && ParseInt(get["page"]).None? ==> page == 1
  {
    var text := if "page" in get then get["page"] else "1";
    assert ParseInt("1") == Some(1) by {
      assert StripLeft("1") == "1" && StripRight("1") == "1";
    }
    match ParseInt(text)
    case None => 1
    case Some(n) => n
  }

  /** The page number a list's own link carries is read back unchanged. */
  lemma GetPagenumOfLink(page: int)
    ensures GetPagenum(map["page" := IntToString(page)]) == page
  {
    ParseIntToString(page);
  }

  /** `?page=+ 2` is page 2 and `?page=- 2` is page -2: `int()` takes white
      space between the sign and the digits. */
  lemma GetPagenumSignedSpaced(sign: char, ws: string, n: nat)
    requires sign == '+' || sign == '-'
    requires forall k | 0 <= k < |ws| :: IsSpace(ws[k])
    ensures GetPagenum(map["page" := [sign] + ws + NatToString(n)]) == if sign == '-' then -(n as int) else n as int
  {
    ParseIntSpaceAfterSign(sign, ws, n);
  }

  /** A page of a Django `Paginator`: its number and the objects on it. */
  datatype Page<T> = Page(number: int, objects: seq<T>)

  /** `Paginator.num_pages` (no orphans, empty first page allowed): one page for
      up to `perPage` objects, and one more for every further `perPage`. */
  function NumPages(count: nat, perPage: nat): (n: nat)
    requires perPage > 0
    ensures n >= 1
    decreases count
  {
    if count <= perPage then 1 else 1 + NumPages(count - perPage, perPage)
  }

  /** Index of the first object on page `number` (pages are numbered from 1). */
  function PageStart(number: int, perPage: nat): nat {
    if number <= 1 then 0 else PageStart(number - 1, perPage) + perPage
  }

  lemma {:induction false} PageStartIsProduct(number: int, perPage: nat)
    requires number >= 1
    ensures PageStart(number, perPage) == (number - 1) * perPage
  {
    if number > 1 {
      PageStartIsProduct(number - 1, perPage);
    }
  }

  lemma {:induction false} PageStartMonotone(a: int, b: int, perPage: nat)
    requires a <= b
    ensures PageStart(a, perPage) <= PageStart(b, perPage)
    decreases b - a
  {
    if a < b {
      PageStartMonotone(a, b - 1, perPage);
    }
  }

  /** The pages cover every object and no page after the first is empty. */
  lemma {:induction false} NumPagesCovers(count: nat, perPage: nat)
    requires perPage > 0
    ensures count <= PageStart(NumPages(count, perPage) + 1, perPage)
    ensures NumPages(count, perPage) == 1 || PageStart(NumPages(count, perPage), perPage) < count
    decreases count
  {
    if count > perPage {
      NumPagesCovers(count - perPage, perPage);
    }
  }

  /** The page count is Django's `ceil(max(1, count) / perPage)`. */
  lemma NumPagesIsCeiling(count: nat, perPage: nat)
    requires perPage > 0
    ensures var n := NumPages(count, perPage);
      (n - 1) * perPage < (if count < 1 then 1 else count) <= n * perPage
  {
    var n := NumPages(count, perPage);
    NumPagesCovers(count, perPage);
    PageStartIsProduct(n, perPage);
    PageStartIsProduct(n + 1, perPage);
  }

  /** Every existing page starts inside the object list, and every page but
      the last is full. */
  lemma PageBounds(count: nat, perPage: nat, number: int)
    requires perPage > 0 && 1 <= number <= NumPages(count, perPage)
    ensures PageStart(number, perPage) <= count
    ensures number < NumPages(count, perPage) ==> PageStart(number, perPage) + perPage <= count
  {
    var n := NumPages(count, perPage);
    NumPagesCovers(count, perPage);
    PageStartMonotone(number, n, perPage);
    if number < n {
      PageStartMonotone(number + 1, n, perPage);
    }
  }

  /** `get_paginator_page(objects, page, perPage)`: the requested page when it
      exists, the last page for any other number (`EmptyPage`), including numbers
      below 1. */
  function GetPaginatorPage<T>(objects: seq<T>, page: int, perPage: nat): (r: Page<T>)
    requires perPage > 0
    ensures 1 <= r.number <= NumPages(|objects|, perPage)
    ensures 1 <= page <= NumPages(|objects|, perPage) ==> r.number == page
    ensures !(1 <= page <= NumPages(|objects|, perPage)) ==> r.number == NumPages(|objects|, perPage)
    ensures |r.objects| <= perPage
    ensures r.number < NumPages(|objects|, perPage) ==> |r.objects| == perPage
    ensures PageStart(r.number, perPage) + |r.objects| <= |objects|
    ensures r.objects == objects[PageStart(r.number, perPage)..PageStart(r.number, perPage) + |r.objects|]
  {
    var n := NumPages(|objects|, perPage);
    var number := if 1 <= page <= n then page else n;
    var bottom := PageStart(number, perPage);
    PageBounds(|objects|, perPage, number);
    var top := if bottom + perPage >= |objects| then |objects| else bottom + perPage;
    Page(number, objects[bottom..top])
  }

  /** Every object is on exactly one page: the object at index `i` is entry
      `i % perPage` of page `i / perPage + 1`. */
  lemma PageOfObject<T>(objects: seq<T>, perPage: nat, i: nat)
    requires perPage > 0 && i < |objects|
    ensures var p := GetPaginatorPage(objects, i / perPage + 1, perPage);
      && p.number == i / perPage + 1
      && i % perPage < |p.objects|
      && p.objects[i % perPage] == objects[i]
  {
    var n := NumPages(|objects|, perPage);
    var q, m := i / perPage, i % perPage;
    PageStartIsProduct(q + 1, perPage);
    assert PageStart(q + 1, perPage) + m == i;
    assert q + 1 <= n by {
      if q + 1 > n {
        NumPagesCovers(|objects|, perPage);
        PageStartMonotone(n + 1, q + 1, perPage);
      }
    }
    var p := GetPaginatorPage(objects, q + 1, perPage);
    if q + 1 == n {
      NumPagesCovers(|objects|, perPage);
      PageStartIsProduct(n + 1, perPage);
      assert PageStart(q + 1, perPage) + |p.objects| == |objects|;
    }
  }
}
