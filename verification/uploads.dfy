/**
 * The part of image uploading that both create forms share once the network is
 * factored out: which entries are files, which upload results count as
 * successful, and the URL kept from a presigned upload URL.
 */
module Uploads {
  import opened Wrappers

  /** An entry handed to `handleAddImages`: a new `File`, or an already uploaded URL. */
  datatype FileEntry = NewFile(name: string) | ExistingUrl(url: string)

  /** The outcome of one presigned upload that did not fail outright. */
  datatype UploadResult = UploadResult(fileId: string, uploadUrl: string)

  /** `files.filter(f => f instanceof File)`. */
  function Files(files: seq<FileEntry>): (r: seq<FileEntry>)
    ensures forall i :: 0 <= i < |r| ==> r[i].NewFile?
    ensures |r| <= |files|
    ensures r == [] <==> forall i :: 0 <= i < |files| ==> files[i].ExistingUrl?
  {
    if files == [] then []
    else if files[0].NewFile? then [files[0]] + Files(files[1..])
    else Files(files[1..])
  }

  /** A result that is kept: not null, with a non-empty `fileId` and `uploadUrl`. */
  predicate Succeeded(r: Option<UploadResult>) {
    r.Some? && r.value.fileId != [] && r.value.uploadUrl != []
  }

  /** The upload URLs of the successful results, in the order of the results. */
  function SuccessfulUrls(results: seq<Option<UploadResult>>): (urls: seq<string>)
    ensures |urls| <= |results|
    ensures forall u :: u in urls ==> u != []
    ensures urls == [] <==> forall i :: 0 <= i < |results| ==> !Succeeded(results[i])
    ensures forall i :: 0 <= i < |results| && Succeeded(results[i]) ==> results[i].value.uploadUrl in urls
    ensures forall u :: u in urls ==>
      exists i :: 0 <= i < |results| && Succeeded(results[i]) && results[i].value.uploadUrl == u
  {
    if results == [] then []
    else
      var rest := SuccessfulUrls(results[1..]);
      assert forall i :: 1 <= i < |results| ==> results[i] == results[1..][i - 1];
      if Succeeded(results[0]) then [results[0].value.uploadUrl] + rest else rest
  }

  /** Keeping successful URLs distributes over concatenation: the URLs keep the
      order of their results, one per successful result. */
  lemma {:induction false} SuccessfulUrlsAppend(a: seq<Option<UploadResult>>, b: seq<Option<UploadResult>>)
    ensures SuccessfulUrls(a + b) == SuccessfulUrls(a) + SuccessfulUrls(b)
  {
    if a != [] {
      assert (a + b)[0] == a[0];
      assert (a + b)[1..] == a[1..] + b;
      SuccessfulUrlsAppend(a[1..], b);
    }
    else {
      assert a + b == b;
    }
  }

  /** The first kept URL is the URL of the first successful result. */
  lemma {:induction false} FirstSuccessfulUrl(results: seq<Option<UploadResult>>, k: nat)
    requires k < |results| && Succeeded(results[k])
    requires forall i :: 0 <= i < k ==> !Succeeded(results[i])
    ensures SuccessfulUrls(results) != [] && SuccessfulUrls(results)[0] == results[k].value.uploadUrl
    decreases k
  {
    if k > 0 {
      FirstSuccessfulUrl(results[1..], k - 1);
    }
  }

  /** `url.split('?')[0]`: the part of the URL before its first `?`. */
  function StripQuery(url: string): (r: string)
    ensures r <= url
    ensures '?' !in r
    ensures r == url || url[|r|] == '?'
  {
    if url == [] || url[0] == '?' then []
    else [url[0]] + StripQuery(url[1..])
  }

  /** Stripping the query of a URL already without one changes nothing. */
  lemma {:induction false} StripQueryIdempotent(url: string)
    ensures StripQuery(StripQuery(url)) == StripQuery(url)
  {
    var r := StripQuery(url);
    StripQueryOfPlain(r);
  }

  lemma {:induction false} StripQueryOfPlain(url: string)
    requires '?' !in url
    ensures StripQuery(url) == url
  {
    if url != [] {
      assert url[0] != '?';
      StripQueryOfPlain(url[1..]);
    }
  }
}
