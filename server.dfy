/** The request logic of the example server: the single-address check and
    the batch check that splits a list of addresses into those the
    membership filter confirms and the rest. The filter's lookup is a
    parameter, known only as a function from an address to its
    `(found, error)` answer; routing, JSON coding, rate limiting and
    logging are not part of this module. */
module Server {
  import opened Common

  const StatusBadRequest: int := 400

  // The bodies of the server's error replies.
  const MissingQueryParameter := "{\"error\": \"Missing 's' parameter\"}"
  const InternalServerError := "{\"error\": \"Internal server error\"}"
  const InvalidJsonBody := "{\"error\": \"Invalid JSON body\"}"
  const EmptyAddressList := "{\"error\": \"Empty addresses list\"}"

  /** What a handler writes back: a JSON body, or an HTTP error. */
  datatype Reply<T> = Ok(body: T) | HttpError(status: int, message: string)

  /** The filter's answer for one address. */
  datatype Lookup = Lookup(ok: bool, err: Option<Error>)

  /** An answer that puts the address in the batch's found list. */
  predicate IsFound(r: Lookup)
  {
    r.ok && r.err.None?
  }

  /** The JSON object the batch check replies with. */
  datatype BatchResult = BatchResult(found: seq<string>, notFound: seq<string>, foundCount: int, notFoundCount: int)

  /** The addresses of `addrs` whose lookup says `IsFound` is `wanted`,
      in input order. */
  function Select(addrs: seq<string>, checkAddress: string -> Lookup, wanted: bool): (selected: seq<string>)
  {
    if addrs == [] then []
    else
      var last := addrs[|addrs| - 1];
      Select(addrs[..|addrs| - 1], checkAddress, wanted) + (if IsFound(checkAddress(last)) == wanted then [last] else [])
  }

  /** The batch check's found list. */
  function Found(addrs: seq<string>, checkAddress: string -> Lookup): (found: seq<string>)
  {
    Select(addrs, checkAddress, true)
  }

  /** The batch check's not-found list. */
  function NotFound(addrs: seq<string>, checkAddress: string -> Lookup): (notFound: seq<string>)
  {
    Select(addrs, checkAddress, false)
  }

  /** The single-address check: an empty `s` parameter is a bad request and
      no lookup happens; a lookup error is reported (with the bad-request
      status, as the server does); otherwise the lookup's answer is the
      reply. `queried` lists the lookups performed. */
  method CheckHandler(query: string, checkAddress: string -> Lookup) returns (reply: Reply<bool>, ghost queried: seq<string>)
    ensures query == "" ==> reply == HttpError(StatusBadRequest, MissingQueryParameter)
    ensures query != "" && checkAddress(query).err.Some? ==> reply == HttpError(StatusBadRequest, InternalServerError)
    ensures query != "" && checkAddress(query).err.None? ==> reply == Ok(checkAddress(query).ok)
    ensures queried == if query == "" then [] else [query]
  {
    if query == "" {
      return HttpError(StatusBadRequest, MissingQueryParameter), [];
    }
    var answer := checkAddress(query);
    queried := [query];
    if answer.err.Some? {
      return HttpError(StatusBadRequest, InternalServerError), queried;
    }
    reply := Ok(answer.ok);
  }

  /** The batch check. `body` is the outcome of decoding the request body.
      A decoding error or an empty list is a bad request and no lookup
      happens; otherwise every address is looked up once, in order, and
      lands in the found list or the not-found list, and the counts are the
      lists' lengths. `queried` lists the lookups performed. */
  method CheckBatchHandler(body: Result<seq<string>>, checkAddress: string -> Lookup)
    returns (reply: Reply<BatchResult>, ghost queried: seq<string>)
    ensures body.Failure? ==> reply == HttpError(StatusBadRequest, InvalidJsonBody)
    ensures body.Success? && body.value == [] ==> reply == HttpError(StatusBadRequest, EmptyAddressList)
    ensures body.Success? && body.value != [] ==>
      && reply.Ok?
      && reply.body.found == Found(body.value, checkAddress)
      && reply.body.notFound == NotFound(body.value, checkAddress)
      && reply.body.foundCount == |reply.body.found|
      && reply.body.notFoundCount == |reply.body.notFound|
    ensures queried == if body.Success? && body.value != [] then body.value else []
  {
    if body.Failure? {
      return HttpError(StatusBadRequest, InvalidJsonBody), [];
    }
    var addresses := body.value;
    if |addresses| == 0 {
      return HttpError(StatusBadRequest, EmptyAddressList), [];
    }
    var found: seq<string> := [];
    var notFound: seq<string> := [];
    queried := [];
    for i := 0 to |addresses|
      invariant queried == addresses[..i]
      invariant found == Found(addresses[..i], checkAddress)
      invariant notFound == NotFound(addresses[..i], checkAddress)
    {
      var address := addresses[i];
      var answer := checkAddress(address);
      queried := queried + [address];
      assert addresses[..i + 1][..i] == addresses[..i];
      if answer.ok && answer.err.None? {
        found := found + [address];
      } else {
        notFound := notFound + [address];
      }
    }
    assert addresses[..|addresses|] == addresses;
    reply := Ok(BatchResult(found, notFound, |found|, |notFound|));
  }

  /** Every address lands in exactly one list: together the two lists are
      a permutation of the input. */
  lemma {:induction false} PartitionIsPermutation(addrs: seq<string>, checkAddress: string -> Lookup)
    ensures multiset(Found(addrs, checkAddress) + NotFound(addrs, checkAddress)) == multiset(addrs)
  {
    if addrs != [] {
      var init, last := addrs[..|addrs| - 1], addrs[|addrs| - 1];
      assert addrs == init + [last];
      PartitionIsPermutation(init, checkAddress);
    }
  }

  /** The two counts add up to the number of addresses in the request. */
  lemma PartitionCounts(addrs: seq<string>, checkAddress: string -> Lookup)
    ensures |Found(addrs, checkAddress)| + |NotFound(addrs, checkAddress)| == |addrs|
  {
    PartitionIsPermutation(addrs, checkAddress);
    assert |multiset(Found(addrs, checkAddress) + NotFound(addrs, checkAddress))| == |multiset(addrs)|;
  }

  /** An address is in a list exactly when it occurs in the input and its
      lookup says `IsFound` is `wanted`: found for a lookup that answers true
      without an error, not found for all others, errors included. */
  lemma {:induction false} SelectMembership(addrs: seq<string>, checkAddress: string -> Lookup, wanted: bool, x: string)
    ensures x in Select(addrs, checkAddress, wanted) <==> x in addrs && IsFound(checkAddress(x)) == wanted
  {
    if addrs != [] {
      var init := addrs[..|addrs| - 1];
      SelectMembership(init, checkAddress, wanted, x);
      assert addrs == init + [addrs[|addrs| - 1]];
    }
  }

  /** The found list holds exactly the input addresses the filter confirms
      without an error; the not-found list holds exactly the others. */
  lemma BatchMembership(addrs: seq<string>, checkAddress: string -> Lookup, x: string)
    ensures x in Found(addrs, checkAddress) <==> x in addrs && IsFound(checkAddress(x))
    ensures x in NotFound(addrs, checkAddress) <==> x in addrs && !IsFound(checkAddress(x))
  {
    SelectMembership(addrs, checkAddress, true, x);
    SelectMembership(addrs, checkAddress, false, x);
  }

  /** `idx` lists, in increasing order, positions of `b` that spell out `a`. */
  ghost predicate Embeds(idx: seq<int>, a: seq<string>, b: seq<string>)
  {
    && |idx| == |a|
    && (forall i :: 0 <= i < |idx| ==> 0 <= idx[i] < |b| && a[i] == b[idx[i]])
    && (forall i, j :: 0 <= i < j < |idx| ==> idx[i] < idx[j])
  }

  /** `a` is `b` with some elements left out, the rest kept in order. */
  ghost predicate IsSubsequence(a: seq<string>, b: seq<string>)
  {
    exists idx :: Embeds(idx, a, b)
  }

  /** The positions a list is taken from: in increasing order, and they are
      exactly the input positions whose lookup says `IsFound` is `wanted`. */
  lemma {:induction false} SelectPositions(addrs: seq<string>, checkAddress: string -> Lookup, wanted: bool)
    returns (idx: seq<int>)
    ensures Embeds(idx, Select(addrs, checkAddress, wanted), addrs)
    ensures forall k :: 0 <= k < |addrs| ==> (k in idx <==> IsFound(checkAddress(addrs[k])) == wanted)
  {
    if addrs == [] {
      return [];
    }
    var n := |addrs|;
    var init, last := addrs[..n - 1], addrs[n - 1];
    var prev := SelectPositions(init, checkAddress, wanted);
    var s := Select(init, checkAddress, wanted);
    assert forall i :: 0 <= i < |prev| ==> prev[i] < n - 1 && addrs[prev[i]] == init[prev[i]];
    if IsFound(checkAddress(last)) == wanted {
      idx := prev + [n - 1];
      assert Select(addrs, checkAddress, wanted) == s + [last];
    } else {
      idx := prev;
      assert Select(addrs, checkAddress, wanted) == s;
    }
    assert n - 1 in idx <==> IsFound(checkAddress(last)) == wanted;
  }

  /** Both lists keep the input order: each is a subsequence of the input. */
  lemma BatchKeepsOrder(addrs: seq<string>, checkAddress: string -> Lookup)
    ensures IsSubsequence(Found(addrs, checkAddress), addrs)
    ensures IsSubsequence(NotFound(addrs, checkAddress), addrs)
  {
    var f := SelectPositions(addrs, checkAddress, true);
    var n := SelectPositions(addrs, checkAddress, false);
  }
}
