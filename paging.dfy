/**
 * Token-driven paging as the Docs and Calendar exporters run it:
 * `while True: ... page_token = resp.get("nextPageToken"); if not page_token: break`.
 * The responses the API gives, in order, are the model's input; a missing
 * token is the empty string.
 */
module Paging {

  /** One response of a token-paged listing: its items and its `nextPageToken` ("" when absent). */
  datatype Page<T> = Page(items: seq<T>, nextPageToken: string)

  /** All items of the given pages, page after page. */
  function Items<T>(pages: seq<Page<T>>): seq<T> {
    if pages == [] then [] else Items(pages[..|pages| - 1]) + pages[|pages| - 1].items
  }

  /** The token each page carries, in order. */
  function Tokens<T>(pages: seq<Page<T>>): (ts: seq<string>)
    ensures |ts| == |pages| && forall k :: 0 <= k < |pages| ==> ts[k] == pages[k].nextPageToken
  {
    seq(|pages|, k requires 0 <= k < |pages| => pages[k].nextPageToken)
  }

  /**
   * How many of the responses are requested: up to and including the first
   * one without a next-page token (all of them if every one has a token).
   */
  function PagesServed(tokens: seq<string>): (n: nat)
    ensures n <= |tokens|
    ensures tokens != [] ==> n >= 1
    ensures forall k :: 0 <= k < n - 1 ==> tokens[k] != ""
    ensures n < |tokens| ==> tokens[n - 1] == ""
  {
    if tokens == [] then 0
    else if tokens[0] == "" then 1
    else 1 + PagesServed(tokens[1..])
  }

  /** The token each request carries: none ("") for the first, then the previous response's token. */
  function RequestTokens(tokens: seq<string>, n: nat): (sent: seq<string>)
    requires n <= |tokens|
    ensures |sent| == n
    ensures n > 0 ==> sent[0] == ""
    ensures forall k :: 0 < k < n ==> sent[k] == tokens[k - 1]
  {
    seq(n, k requires 0 <= k < n => if k == 0 then "" else tokens[k - 1])
  }

  /** One more request carries the previous response's token. */
  lemma RequestTokensStep(tokens: seq<string>, p: nat)
    requires p < |tokens|
    ensures RequestTokens(tokens, p + 1) == RequestTokens(tokens, p) + [if p == 0 then "" else tokens[p - 1]]
  {
  }

  /** Paging stops exactly at the first response without a token, or at the end. */
  lemma PagesServedAt(tokens: seq<string>, p: nat)
    requires p <= PagesServed(tokens)
    requires p == |tokens| || (p >= 1 && tokens[p - 1] == "")
    ensures p == PagesServed(tokens)
  {
  }

  /** While the last response carried a token, one more page is served. */
  lemma PagesServedNext(tokens: seq<string>, p: nat)
    requires p < |tokens| && p <= PagesServed(tokens)
    requires p == 0 || tokens[p - 1] != ""
    ensures p + 1 <= PagesServed(tokens)
  {
  }
}
