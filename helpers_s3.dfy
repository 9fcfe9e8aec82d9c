/**
 * helpers/s3.go UpdateIndexHTML: fetch index.html, put the fresh pre-signed
 * URL in place of the quoted placeholder URL, and upload the page again.
 *
 * The object fetch (with the read of its body) and the upload are oracles.
 * The configuration load's error is discarded by the source, so it has no
 * path here.
 */
module HelpersS3 {
  import opened Common
  import opened Text

  /** The quoted placeholder URL that the page ships with. */
  const Placeholder := "\"https://your-s3-bucket.s3.amazonaws.com/latest_news.json?...signed-url-params\""

  /** A URL between double quotes. */
  function Quoted(url: string): string
  {
    "\"" + url + "\""
  }

  /** The page as uploaded: its first placeholder replaced by the quoted pre-signed URL. */
  function UpdatedIndex(html: string, preSignedURL: string): (r: string)
    ensures !Contains(html, Placeholder) ==> r == html
    ensures Contains(html, Placeholder) ==>
              exists i :: && OccursAt(html, Placeholder, i)
                          && (forall j :: 0 <= j < i ==> !OccursAt(html, Placeholder, j))
                          && r == html[..i] + Quoted(preSignedURL) + html[i + |Placeholder|..]
  {
    ReplaceFirst(html, Placeholder, Quoted(preSignedURL))
  }

  /** The outcome of fetching index.html: the fetch failed, reading its body failed, or its content. */
  datatype IndexFetch = GetFailed(error: string) | ReadFailed(error: string) | Fetched(body: string)

  /**
   * UpdateIndexHTML. `getIndex` is the result of fetching and reading the
   * page; `putIndex` uploads a body. `uploads` records the bodies passed to
   * `putIndex`.
   */
  method UpdateIndexHTML(preSignedURL: string, getIndex: IndexFetch, putIndex: string -> Status)
    returns (err: Option<string>, uploads: seq<string>)
    ensures getIndex.GetFailed? ==>
              err == Some("failed to fetch existing index.html: " + getIndex.error) && uploads == []
    ensures getIndex.ReadFailed? ==>
              err == Some("failed to read index.html content: " + getIndex.error) && uploads == []
    ensures getIndex.Fetched? ==>
              var updated := UpdatedIndex(getIndex.body, preSignedURL);
              && uploads == [updated]
              && (putIndex(updated).Failed? ==> err == Some("failed to upload updated index.html: " + putIndex(updated).error))
              && (putIndex(updated).Ok? ==> err == None)
  {
    uploads := [];
    if getIndex.GetFailed? {
      return Some("failed to fetch existing index.html: " + getIndex.error), uploads;
    }
    if getIndex.ReadFailed? {
      return Some("failed to read index.html content: " + getIndex.error), uploads;
    }
    var htmlContent := getIndex.body;
    var updatedHTML := ReplaceFirst(htmlContent, Placeholder, "\"" + preSignedURL + "\"");
    var status := putIndex(updatedHTML);
    uploads := uploads + [updatedHTML];
    if status.Failed? {
      return Some("failed to upload updated index.html: " + status.error), uploads;
    }
    return None, uploads;
  }

  /** The quoted URL stands where the first placeholder stood. */
  lemma UrlInserted(html: string, preSignedURL: string)
    requires Contains(html, Placeholder)
    ensures OccursAt(UpdatedIndex(html, preSignedURL), Quoted(preSignedURL), Index(html, Placeholder))
  {
    var i := Index(html, Placeholder);
    var q := Quoted(preSignedURL);
    var r := UpdatedIndex(html, preSignedURL);
    assert r == html[..i] + q + html[i + |Placeholder|..];
    assert r[i..i + |q|] == q;
  }

  /** Only the first placeholder is replaced: a later one survives, shifted by the change in length. */
  lemma LaterPlaceholderKept(html: string, preSignedURL: string, j: int)
    requires Contains(html, Placeholder)
    requires j >= Index(html, Placeholder) + |Placeholder| && OccursAt(html, Placeholder, j)
    ensures OccursAt(UpdatedIndex(html, preSignedURL), Placeholder, j - |Placeholder| + |Quoted(preSignedURL)|)
  {
    var i := Index(html, Placeholder);
    OccursInReplaced(html, Placeholder, Quoted(preSignedURL), i, j);
  }

  /** An occurrence of p after the replaced span at i is found again in the result, shifted. */
  lemma OccursInReplaced(s: string, p: string, q: string, i: nat, j: int)
    requires i + |p| <= |s| && j >= i + |p| && OccursAt(s, p, j)
    ensures OccursAt(s[..i] + q + s[i + |p|..], p, j - |p| + |q|)
  {
    var rest := s[i + |p|..];
    var r := s[..i] + q + rest;
    var m := j - i - |p|;
    assert rest[m..m + |p|] == s[j..j + |p|];
    assert r[|s[..i] + q| + m..|s[..i] + q| + m + |p|] == rest[m..m + |p|];
  }

  /** Text before the first placeholder and after it is carried over unchanged. */
  lemma SurroundingsKept(html: string, preSignedURL: string)
    requires Contains(html, Placeholder)
    ensures var i := Index(html, Placeholder);
            var r := UpdatedIndex(html, preSignedURL);
            && |r| == |html| - |Placeholder| + |Quoted(preSignedURL)|
            && r[..i] == html[..i]
            && r[i + |Quoted(preSignedURL)|..] == html[i + |Placeholder|..]
  {
    var i := Index(html, Placeholder);
    var q := Quoted(preSignedURL);
    var r := UpdatedIndex(html, preSignedURL);
    assert r == html[..i] + q + html[i + |Placeholder|..];
    assert r[..i] == html[..i];
    assert r[i + |q|..] == html[i + |Placeholder|..];
  }
}
