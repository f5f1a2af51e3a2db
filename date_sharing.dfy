/** The URL handling of the date-sharing page: dropping the query part of
    the current address and appending a `date` parameter to it. */
module DateSharing {

  /** The index of the first occurrence of `ch` in `s`, or -1 when there is
      none: `findIndex` over the characters of a string. */
  function FindIndex(s: string, ch: char): (ix: int)
    ensures -1 <= ix < |s|
    ensures ix == -1 <==> ch !in s
    ensures ix >= 0 ==> s[ix] == ch && ch !in s[..ix]
  {
    if |s| == 0 then -1
    else if s[0] == ch then 0
    else
      var rest := FindIndex(s[1..], ch);
      if rest == -1 then -1
      else rest + 1
  }

  /** The address up to, and without, its first `?`: everything from the
      first `?` on is dropped, a fragment after it included. An address
      without `?` is kept whole, fragment and all. */
  function TrimParamsFromURL(url: string): (trimmed: string)
    ensures trimmed <= url
    ensures '?' !in trimmed
    ensures '?' !in url ==> trimmed == url
    ensures '?' in url ==> url[|trimmed|] == '?'
  {
    var ix := FindIndex(url, '?');
    if ix == -1 then url else url[..ix]
  }

  /** The address the page navigates to in order to share a date: the
      current address without its query, then `?date=` and the encoded
      date. */
  function DateUrl(href: string, encodedDate: string): (url: string)
    ensures TrimParamsFromURL(url) == TrimParamsFromURL(href)
    ensures url == TrimParamsFromURL(url) + "?date=" + encodedDate
  {
    var currUrl := TrimParamsFromURL(href);
    var fullUrl := currUrl + "?date=" + encodedDate;
    CutAtFirstQuestionMark(fullUrl, |currUrl|);
    fullUrl
  }

  /** Trimming is determined by the first `?`: whenever `url[i]` is a `?`
      and no `?` comes before it, the trimmed address is `url[..i]`. */
  lemma CutAtFirstQuestionMark(url: string, i: int)
    requires 0 <= i < |url| && url[i] == '?'
    requires '?' !in url[..i]
    ensures TrimParamsFromURL(url) == url[..i]
  {
  }

  /** Trimming twice is trimming once. */
  lemma TrimIdempotent(url: string)
    ensures TrimParamsFromURL(TrimParamsFromURL(url)) == TrimParamsFromURL(url)
  {
  }

  /** The trimmed address is the longest prefix without `?`: every longer
      prefix contains one. */
  lemma TrimIsLongestPlainPrefix(url: string, p: string)
    requires p <= url && '?' !in p
    ensures |p| <= |TrimParamsFromURL(url)|
  {
  }

  /** Sharing a second date replaces the first one instead of stacking up
      query strings. */
  lemma DateUrlReplacesDate(href: string, first: string, second: string)
    ensures DateUrl(DateUrl(href, first), second) == DateUrl(href, second)
  {
  }
}
