/** GetNameList: the server cuts a name list into pages by octet budget, the client collects them. */
module Paging {
  import opened Bytes
  import opened BerIntegers
  import opened Ber
  import opened MmsValues
  import opened MmsPdus
  import opened MmsPduRoundTrip
  import opened Texts

  const MAX_RESPONSE_BYTES := 60000

  // ---- Server ----

  /** The names after the first occurrence of `c`; none when `c` does not occur. */
  function After(names: seq<Text>, c: Text): seq<Text> {
    if names == [] then []
    else if names[0] == c then names[1..]
    else After(names[1..], c)
  }

  /** How many names the budget admits. */
  function Admitted(names: seq<Text>, budget: int): (n: nat)
    ensures n <= |names|
  {
    if names == [] || budget < 2 + |names[0]| then 0
    else 1 + Admitted(names[1..], budget - (2 + |names[0]|))
  }

  /** What the server has left to say to a client that asks for more. */
  function Remaining(names: seq<Text>, continueAfter: Text): seq<Text> {
    if continueAfter == [] then names else After(names, continueAfter)
  }

  function PageOf(names: seq<Text>, continueAfter: Text): NameList {
    var rest := Remaining(names, continueAfter);
    var n := Admitted(rest, MAX_RESPONSE_BYTES);
    NameList(rest[..n], n < |rest|)
  }

  method CutPage(all: seq<Text>, continueAfter: Text) returns (page: NameList)
    ensures page == PageOf(all, continueAfter)
  {
    var names := all;
    if continueAfter != [] {
      names := SkipTo(all, continueAfter);
    }
    var moreFollows := false;
    var budget := MAX_RESPONSE_BYTES;
    var i := 0;
    ghost var rest := names;
    while i < |names|
      invariant 0 <= i <= |names| && names == rest && !moreFollows
      invariant Admitted(names, MAX_RESPONSE_BYTES) == i + Admitted(names[i..], budget)
    {
      budget := budget - (2 + |names[i]|);
      if budget < 0 {
        names := names[..i];
        moreFollows := true;
        break;
      }
      assert names[i..][1..] == names[i + 1..];
      i := i + 1;
    }
    assert rest[..|rest|] == rest;
    page := NameList(names, moreFollows);
  }

  method SkipTo(all: seq<Text>, continueAfter: Text) returns (names: seq<Text>)
    ensures names == After(all, continueAfter)
  {
    var i := 0;
    while i < |all|
      invariant 0 <= i <= |all|
      invariant After(all, continueAfter) == After(all[i..], continueAfter)
    {
      if all[i] == continueAfter {
        return all[i + 1..];
      }
      assert all[i..][1..] == all[i + 1..];
      i := i + 1;
    }
    return [];
  }

  /** The server's answer to a request PDU, for any directory of names per class and domain. */
  function Answer(directory: (int, Text) -> seq<Text>, request: View): Result<bytes> {
    var pdu :- ParseConfirmed(TAG_CONFIRMED_REQUEST, request);
    var req := ParseGetNameListRequestContent(pdu.content);
    var page := PageOf(directory(req.objectClass, req.domain), req.continueAfter);
    Ok(BuildGetNameListResponse(pdu.invokeID, page.names, page.moreFollows))
  }

  // ---- What a page is ----

  predicate Servable(name: Text) {
    2 + |name| <= MAX_RESPONSE_BYTES
  }

  /** The names before the first one that no page can hold. */
  function ServablePrefix(names: seq<Text>): (p: seq<Text>)
    ensures |p| <= |names| && p == names[..|p|]
    ensures |p| < |names| ==> !Servable(names[|p|])
    ensures forall i :: 0 <= i < |p| ==> Servable(p[i])
  {
    if names == [] || !Servable(names[0]) then [] else [names[0]] + ServablePrefix(names[1..])
  }

  lemma ServablePrefixExactly(names: seq<Text>)
    ensures ServablePrefix(names) == names <==> forall i :: 0 <= i < |names| ==> Servable(names[i])
  {
    if ServablePrefix(names) == names {
      forall i | 0 <= i < |names| ensures Servable(names[i]) {
        assert ServablePrefix(names)[i] == names[i];
      }
    }
  }

  /** Octets of a page as the budget counts them. */
  function Cost(names: seq<Text>): nat {
    if names == [] then 0 else 2 + |names[0]| + Cost(names[1..])
  }

  lemma {:induction false} AdmittedFacts(names: seq<Text>, budget: nat)
    ensures var n := Admitted(names, budget);
            && Cost(names[..n]) <= budget
            && (n < |names| ==> Cost(names[..n]) + 2 + |names[n]| > budget)
    ensures names != [] && 2 + |names[0]| <= budget ==> Admitted(names, budget) > 0
  {
    if names != [] && 2 + |names[0]| <= budget {
      AdmittedFacts(names[1..], budget - (2 + |names[0]|));
      var n := Admitted(names, budget);
      assert names[..n][1..] == names[1..][..n - 1];
    }
  }

  lemma {:induction false} CostCoversServable(names: seq<Text>)
    requires Cost(names) <= MAX_RESPONSE_BYTES
    ensures forall i :: 0 <= i < |names| ==> Servable(names[i])
    decreases |names|
  {
    if names != [] {
      CostCoversServable(names[1..]);
      forall i | 0 <= i < |names| ensures Servable(names[i]) {
        assert i > 0 ==> names[i] == names[1..][i - 1];
      }
    }
  }

  lemma {:induction false} EncodedNamesSize(names: seq<Text>)
    ensures |EncodeNames(names)| <= 3 * Cost(names)
    ensures (forall i :: 0 <= i < |names| ==> |names[i]| < 128) ==> |EncodeNames(names)| == Cost(names)
  {
    hide UniversalTLV;
    if names != [] {
      EncodedNamesSize(names[1..]);
      VisibleSize(names[0]);
    }
  }

  lemma VisibleSize(s: Text)
    ensures |Visible(s)| <= |s| + 6
    ensures |s| < 128 ==> |Visible(s)| == |s| + 2
  {
  }

  // ---- One exchange over the wire ----

  /** What the client reads out of a response PDU. */
  function Understood(response: View): Result<NameList> {
    var pdu :- ParseConfirmed(TAG_CONFIRMED_RESPONSE, response);
    NameListFrom(pdu.content, 0, NameList([], false))
  }

  predicate FitsRequest(domain: Text, continueAfter: Text) {
    |domain| < 0x1000_0000 && |continueAfter| < 0x1000_0000
  }

  lemma RequestSize(objectClass: int64, domain: Text, continueAfter: Text)
    requires FitsRequest(domain, continueAfter)
    ensures |NameListRequestContent(objectClass, domain, continueAfter)| < LIMIT - 20
  {
    hide ContextTLV;
    Int64Size(objectClass);
    ContextSize(0, false, TwosComplement(objectClass));
    ContextSize(0, true, ContextTLV(0, false, TwosComplement(objectClass)));
    ContextSize(1, false, domain);
    ContextSize(1, true, ContextTLV(1, false, domain));
    ContextSize(0, false, []);
    ContextSize(1, true, ContextTLV(0, false, []));
    ContextSize(5, false, continueAfter);
  }

  lemma ResponseUnderstood(invokeID: uint32, names: seq<Text>, moreFollows: bool, beyond: bytes)
    requires Cost(names) <= MAX_RESPONSE_BYTES
    ensures ParseConfirmed(TAG_CONFIRMED_RESPONSE, View(BuildGetNameListResponse(invokeID, names, moreFollows), beyond)).Ok?
    ensures Understood(View(BuildGetNameListResponse(invokeID, names, moreFollows), beyond)) == Ok(NameList(names, moreFollows))
  {
    hide ContextTLV;
    hide ParseConfirmed;
    hide Confirmed;
    hide NameListFrom;
    EncodedNamesSize(names);
    var content := NameListContent(names, moreFollows);
    ContextSize(0, true, EncodeNames(names));
    ContextSize(1, false, [if moreFollows then 0xFF else 0x00]);
    ConfirmedRoundTrip(TAG_CONFIRMED_RESPONSE, invokeID, SVC_GET_NAME_LIST, content, beyond);
    NameListRead(names, moreFollows);
  }

  /** A request and its answer, through both codecs, amount to cutting one page. */
  lemma ExchangeIsPage(directory: (int, Text) -> seq<Text>, invokeID: uint32, objectClass: int64,
                       domain: Text, continueAfter: Text, beyond: bytes)
    requires FitsRequest(domain, continueAfter)
    ensures var request := EncodeGetNameListRequest(invokeID, objectClass, domain, continueAfter);
            var answer := Answer(directory, View(request, beyond));
            var page := PageOf(directory(objectClass, domain), continueAfter);
            && answer == Ok(BuildGetNameListResponse(invokeID, page.names, page.moreFollows))
            && Understood(View(answer.value, beyond)) == Ok(page)
  {
    hide Confirmed;
    hide ParseConfirmed;
    hide Understood;
    hide NameListRequestContent;
    hide BuildGetNameListResponse;
    hide Admitted;
    RequestSize(objectClass, domain, continueAfter);
    ConfirmedRoundTrip(TAG_CONFIRMED_REQUEST, invokeID, SVC_GET_NAME_LIST,
                       NameListRequestContent(objectClass, domain, continueAfter), beyond);
    NameListContentRead(objectClass, domain, continueAfter);
    var names := directory(objectClass, domain);
    var rest := Remaining(names, continueAfter);
    AdmittedFacts(rest, MAX_RESPONSE_BYTES);
    var page := PageOf(names, continueAfter);
    ResponseUnderstood(invokeID, page.names, page.moreFollows, beyond);
  }

  // ---- Client ----

  /** Where the client stands after the first `k` names. */
  function Position(names: seq<Text>, k: nat): Text
    requires k <= |names|
  {
    if k == 0 then [] else names[k - 1]
  }

  /** The name that ends a page: not empty, and not among the names before it. */
  predicate CleanCut(names: seq<Text>, k: nat) {
    0 < k <= |names| && names[k - 1] != [] && names[k - 1] !in names[..k - 1]
  }

  /** The next page starts right behind the last name seen if and only if that name makes a clean cut. */
  lemma {:induction false} CutExactly(names: seq<Text>, k: nat)
    requires 0 < k <= |names|
    ensures Remaining(names, names[k - 1]) == names[k..] <==> CleanCut(names, k)
  {
    var c := names[k - 1];
    if c == [] {
      assert |names[k..]| < |names|;
    } else {
      AfterFirst(names, c);
      var j := First(names, c);
      assert names[j] == c;
      if j == k - 1 {
        assert c !in names[..k - 1];
      } else {
        FirstIsLeast(names, c, k - 1);
        assert names[..k - 1][j] == c;
        assert |names[j + 1..]| > |names[k..]|;
      }
    }
  }

  function First(names: seq<Text>, c: Text): (j: nat)
    requires c in names
    ensures j < |names| && names[j] == c && c !in names[..j]
  {
    if names[0] == c then 0
    else
      var j := First(names[1..], c);
      assert names[..j + 1] == [names[0]] + names[1..][..j];
      j + 1
  }

  lemma {:induction false} FirstIsLeast(names: seq<Text>, c: Text, i: nat)
    requires i < |names| && names[i] == c
    ensures First(names, c) <= i
  {
    if names[0] != c {
      assert names[1..][i - 1] == c;
      FirstIsLeast(names[1..], c, i - 1);
    }
  }

  lemma {:induction false} AfterFirst(names: seq<Text>, c: Text)
    requires c in names
    ensures After(names, c) == names[First(names, c) + 1..]
  {
    if names[0] != c {
      AfterFirst(names[1..], c);
    }
  }

  /** How many names the page behind `k` names holds. */
  function PageCount(names: seq<Text>, k: nat): nat
    requires k <= |names|
  {
    Admitted(names[k..], MAX_RESPONSE_BYTES)
  }

  /** Every page but the last ends in a clean cut. */
  predicate CleanFrom(names: seq<Text>, k: nat)
    requires k <= |names|
    decreases |names| - k
  {
    var n := PageCount(names, k);
    n == 0 || k + n == |names| || (CleanCut(names, k + n) && CleanFrom(names, k + n))
  }

  /** Distinct non-empty names can be cut anywhere. */
  lemma {:induction false} DistinctIsClean(names: seq<Text>, k: nat)
    requires Distinct(names) && k <= |names| && forall i :: 0 <= i < |names| ==> names[i] != []
    ensures CleanFrom(names, k)
    decreases |names| - k
  {
    hide Admitted;
    var n := PageCount(names, k);
    if n != 0 && k + n != |names| {
      assert CleanCut(names, k + n);
      DistinctIsClean(names, k + n);
    }
  }

  lemma NextPage(names: seq<Text>, k: nat)
    requires k <= |ServablePrefix(names)| && (k == 0 || CleanCut(names, k))
    ensures var page := PageOf(names, Position(names, k));
            && |page.names| == PageCount(names, k)
            && k + |page.names| <= |ServablePrefix(names)|
            && page.names == names[k..k + |page.names|]
            && page.moreFollows == (k + |page.names| < |names|)
            && (page.names == [] ==> k == |ServablePrefix(names)|)
  {
    hide Admitted;
    hide After;
    hide ServablePrefix;
    hide Cost;
    hide CleanCut;
    if k > 0 {
      CutExactly(names, k);
      LastSeen(names, k);
    }
    var rest := names[k..];
    AdmittedFacts(rest, MAX_RESPONSE_BYTES);
    var n := Admitted(rest, MAX_RESPONSE_BYTES);
    CostCoversServable(rest[..n]);
    var p := |ServablePrefix(names)|;
    forall i | k <= i < k + n ensures Servable(names[i]) {
      assert rest[..n][i - k] == names[i];
    }
    assert k < p ==> ServablePrefix(names)[k] == names[k] == rest[0];
  }

  lemma LastSeen(names: seq<Text>, k: nat)
    requires CleanCut(names, k)
    ensures 0 < k <= |names| && Position(names, k) == names[k - 1] != []
  {
  }

  lemma CleanStep(names: seq<Text>, k: nat)
    requires k <= |names| && CleanFrom(names, k) && 0 < PageCount(names, k) < |names| - k
    ensures CleanCut(names, k + PageCount(names, k)) && CleanFrom(names, k + PageCount(names, k))
  {
    hide PageCount;
    hide CleanCut;
  }

  /** One request of the client's loop and the response to it. */
  method FetchPage(directory: (int, Text) -> seq<Text>, objectClass: int64, domain: Text, invokeID: uint32,
                   continueAfter: Text, beyond: bytes)
    returns (page: NameList)
    requires FitsRequest(domain, continueAfter)
    ensures page == PageOf(directory(objectClass, domain), continueAfter)
  {
    hide Answer;
    hide Understood;
    hide PageOf;
    hide EncodeGetNameListRequest;
    ExchangeIsPage(directory, invokeID, objectClass, domain, continueAfter, beyond);
    var response := Answer(directory, View(EncodeGetNameListRequest(invokeID, objectClass, domain, continueAfter), beyond));
    return Understood(View(response.value, beyond)).value;
  }

  /**
   * getNameList against the server above: when every page but the last ends in a clean cut, it terminates with the
   * names in order, up to the first one that no page can hold.
   */
  method GetNameList(directory: (int, Text) -> seq<Text>, objectClass: int64, domain: Text, firstID: uint32)
    returns (all: seq<Text>)
    requires |domain| < 0x1000_0000
    requires CleanFrom(directory(objectClass, domain), 0)
    ensures all == ServablePrefix(directory(objectClass, domain))
  {
    hide PageOf;
    hide CleanCut;
    hide CleanFrom;
    hide PageCount;
    hide ServablePrefix;
    ghost var names := directory(objectClass, domain);
    all := [];
    var continueAfter: Text := [];
    var invokeID: int := firstID;
    while true
      invariant |all| <= |ServablePrefix(names)| && all == names[..|all|]
      invariant |all| == 0 || CleanCut(names, |all|)
      invariant CleanFrom(names, |all|) && continueAfter == Position(names, |all|)
      decreases |names| - |all|
    {
      invokeID := (invokeID + 1) % 0x1_0000_0000;
      assert FitsRequest(domain, continueAfter) by {
        assert |all| > 0 ==> Servable(ServablePrefix(names)[|all| - 1]);
      }
      NextPage(names, |all|);
      var resp := FetchPage(directory, objectClass, domain, invokeID, continueAfter, []);
      ghost var k := |all|;
      assert all + resp.names == names[..k + |resp.names|];
      all := all + resp.names;
      if !resp.moreFollows || |resp.names| == 0 {
        break;
      }
      CleanStep(names, k);
      continueAfter := resp.names[|resp.names| - 1];
    }
  }

  // ---- Listings that do not cut cleanly ----

  /** The client between two requests. */
  datatype Browsing = Browsing(all: seq<Text>, continueAfter: Text, done: bool)

  /** One turn of the client's loop against the pages of `names`. */
  function Turn(names: seq<Text>, b: Browsing): Browsing {
    if b.done then b
    else
      var page := PageOf(names, b.continueAfter);
      var all := b.all + page.names;
      if !page.moreFollows || |page.names| == 0 then Browsing(all, b.continueAfter, true)
      else Browsing(all, page.names[|page.names| - 1], false)
  }

  function Turns(names: seq<Text>, n: nat): Browsing {
    if n == 0 then Browsing([], [], false) else Turn(names, Turns(names, n - 1))
  }

  /** A first page that is full and ends in an empty name is asked for again and again: the client never finishes. */
  lemma {:induction false} EmptyNameNeverEnds(names: seq<Text>, n: nat)
    requires 0 < PageCount(names, 0) < |names| && names[PageCount(names, 0) - 1] == []
    ensures Turns(names, n) == Browsing(Turns(names, n).all, [], false)
    ensures |Turns(names, n).all| == n * PageCount(names, 0)
  {
    hide PageCount;
    hide Turn;
    if n == 0 {
      assert |Turns(names, 0).all| == 0;
    } else {
      EmptyNameNeverEnds(names, n - 1);
      StartsOver(names, Turns(names, n - 1).all);
      Multiples(n, PageCount(names, 0));
    }
  }

  lemma StartsOver(names: seq<Text>, all: seq<Text>)
    requires 0 < PageCount(names, 0) < |names| && names[PageCount(names, 0) - 1] == []
    ensures Turn(names, Browsing(all, [], false)) == Browsing(all + names[..PageCount(names, 0)], [], false)
  {
    hide Admitted;
    assert names[0..] == names;
  }

  lemma Multiples(n: nat, c: nat)
    requires n > 0
    ensures n * c == (n - 1) * c + c
  {
  }

  /**
   * So does one that ends in a name of its own beginning, when the pages behind that name come out alike: at the end
   * of the page the server starts over behind the first occurrence.
   */
  lemma {:induction false} RepeatedNameNeverEnds(names: seq<Text>, n: nat)
    requires var c := PageCount(names, 0);
             && 0 < c < |names| && names[c - 1] != [] && names[c - 1] in names[..c - 1]
             && var rest := After(names, names[c - 1]);
                var m := Admitted(rest, MAX_RESPONSE_BYTES);
                0 < m < |rest| && rest[m - 1] == names[c - 1]
    ensures n > 0 ==> !Turns(names, n).done && Turns(names, n).continueAfter == names[PageCount(names, 0) - 1]
  {
    hide Admitted;
    hide After;
    assert names[0..] == names;
    if n > 0 {
      RepeatedNameNeverEnds(names, n - 1);
      assert n == 1 ==> Turns(names, 0) == Browsing([], [], false);
    }
  }

  // ---- Exactly when the client ends with the listing ----

  /** Where the server goes on behind the name that ended a page at `p`. */
  function Resumed(names: seq<Text>, p: nat): (o: nat)
    requires 0 < p <= |names|
    ensures o <= p
  {
    var c := names[p - 1];
    if c == [] then 0
    else
      FirstIsLeast(names, c, p - 1);
      First(names, c) + 1
  }

  lemma {:induction false} ResumedExactly(names: seq<Text>, p: nat)
    requires 0 < p <= |names|
    ensures Remaining(names, names[p - 1]) == names[Resumed(names, p)..]
    ensures Resumed(names, p) == p <==> CleanCut(names, p)
  {
    var c := names[p - 1];
    if c != [] {
      AfterFirst(names, c);
      var j := First(names, c);
      assert names[j] == c;
      if j < p - 1 {
        FirstIsLeast(names, c, p - 1);
        assert names[..p - 1][j] == c;
      }
    }
  }

  /** The server stands at `o` while the client asks for what follows its last name. */
  predicate StandsAt(names: seq<Text>, b: Browsing, o: nat) {
    !b.done && o <= |names| && Remaining(names, b.continueAfter) == names[o..]
  }

  /** One turn, from where the server stands. */
  lemma TurnFrom(names: seq<Text>, b: Browsing, o: nat)
    requires StandsAt(names, b, o)
    ensures var c, b' := PageCount(names, o), Turn(names, b);
            && o + c <= |names| && b'.all == b.all + names[o..o + c]
            && (c == 0 || o + c == |names| ==> b'.done)
            && (0 < c < |names| - o ==> !b'.done && b'.continueAfter == names[o + c - 1]
                                        && StandsAt(names, b', Resumed(names, o + c)))
  {
    hide Admitted;
    hide Remaining;
    hide Resumed;
    var rest := names[o..];
    var c := Admitted(rest, MAX_RESPONSE_BYTES);
    assert rest[..c] == names[o..o + c];
    if 0 < c < |names| - o {
      assert rest[..c][c - 1] == names[o + c - 1];
      ResumedExactly(names, o + c);
    }
  }

  /** A page is empty only at the end of what any page can hold. */
  lemma EmptyPage(names: seq<Text>, o: nat)
    requires o <= |names| && PageCount(names, o) == 0
    ensures o >= |ServablePrefix(names)|
  {
    hide Admitted;
    AdmittedFacts(names[o..], MAX_RESPONSE_BYTES);
    assert o < |names| ==> names[o..][0] == names[o] && !Servable(names[o]);
  }

  /** The client has collected more than the server has moved on, and will never make that good. */
  ghost predicate Behind(names: seq<Text>, b: Browsing) {
    if b.done then |b.all| > |ServablePrefix(names)| else exists o: nat :: StandsAt(names, b, o) && o < |b.all|
  }

  lemma BehindStays(names: seq<Text>, b: Browsing)
    requires Behind(names, b)
    ensures Behind(names, Turn(names, b))
  {
    hide PageCount;
    hide ServablePrefix;
    hide StandsAt;
    hide Resumed;
    hide Turn;
    if b.done {
      DoneStays(names, b);
    } else {
      var o: nat :| StandsAt(names, b, o) && o < |b.all|;
      StandsWithin(names, b, o);
      var c, b' := PageCount(names, o), Turn(names, b);
      TurnFrom(names, b, o);
      if c == 0 {
        EmptyPage(names, o);
      } else if 0 < c < |names| - o {
        assert StandsAt(names, b', Resumed(names, o + c));
        NotDone(names, b', Resumed(names, o + c));
      }
    }
  }

  lemma DoneStays(names: seq<Text>, b: Browsing)
    requires b.done
    ensures Turn(names, b) == b
  {
  }

  lemma StandsWithin(names: seq<Text>, b: Browsing, o: nat)
    requires StandsAt(names, b, o)
    ensures o <= |names|
  {
  }

  lemma NotDone(names: seq<Text>, b: Browsing, o: nat)
    requires StandsAt(names, b, o)
    ensures !b.done
  {
  }

  /** So far every page ended in a clean cut, and the server stands right behind what the client has. */
  predicate InStep(names: seq<Text>, b: Browsing) {
    |b.all| <= |names| && b.all == names[..|b.all|] && StandsAt(names, b, |b.all|)
  }

  lemma StepInStep(names: seq<Text>, b: Browsing)
    requires InStep(names, b)
    ensures var k, b' := |b.all|, Turn(names, b);
            var c := PageCount(names, k);
            && k + c <= |names| && b'.all == names[..k + c]
            && (c == 0 || k + c == |names| ==> b'.done)
            && (0 < c < |names| - k ==> !b'.done)
            && (0 < c < |names| - k && CleanCut(names, k + c) ==> InStep(names, b'))
            && (0 < c < |names| - k && !CleanCut(names, k + c) ==> Behind(names, b'))
  {
    hide PageCount;
    hide Turn;
    hide CleanCut;
    hide Resumed;
    hide Remaining;
    var k := |b.all|;
    var c := PageCount(names, k);
    TurnFrom(names, b, k);
    assert names[..k] + names[k..k + c] == names[..k + c];
    if 0 < c < |names| - k {
      ResumedExactly(names, k + c);
      assert StandsAt(names, Turn(names, b), Resumed(names, k + c));
    }
  }

  lemma EndInStep(names: seq<Text>, k: nat)
    requires k <= |names| && CleanFrom(names, k) && k <= |ServablePrefix(names)|
    requires PageCount(names, k) == 0 || k + PageCount(names, k) == |names|
    ensures k + PageCount(names, k) <= |names| && names[..k + PageCount(names, k)] == ServablePrefix(names)
  {
    hide Admitted;
    hide ServablePrefix;
    hide Cost;
    var c := PageCount(names, k);
    if c == 0 {
      EmptyPage(names, k);
    } else {
      PageServable(names, k);
    }
  }

  lemma PageServable(names: seq<Text>, k: nat)
    requires k <= |ServablePrefix(names)|
    ensures k + PageCount(names, k) <= |ServablePrefix(names)|
  {
    hide Admitted;
    hide ServablePrefix;
    hide Cost;
    var rest, c := names[k..], PageCount(names, k);
    AdmittedFacts(rest, MAX_RESPONSE_BYTES);
    CostCoversServable(rest[..c]);
    forall i | k <= i < k + c ensures Servable(names[i]) {
      assert rest[..c][i - k] == names[i];
    }
  }

  predicate Finished(names: seq<Text>, b: Browsing) {
    b.done && b.all == ServablePrefix(names)
  }

  /** With clean cuts, every turn makes progress until the client has the whole listing. */
  lemma {:induction false} CleanTurns(names: seq<Text>, n: nat)
    requires CleanFrom(names, 0)
    ensures var b := Turns(names, n);
            Finished(names, b)
            || (InStep(names, b) && n <= |b.all| <= |ServablePrefix(names)| && CleanFrom(names, |b.all|))
    decreases n
  {
    hide PageCount;
    hide Turn;
    hide CleanCut;
    hide ServablePrefix;
    hide InStep;
    if n == 0 {
      StartInStep(names);
    } else {
      CleanTurns(names, n - 1);
      var b := Turns(names, n - 1);
      if Finished(names, b) {
        DoneStays(names, b);
      } else {
        var k := |b.all|;
        var c := PageCount(names, k);
        StepInStep(names, b);
        if c == 0 || k + c == |names| {
          EndInStep(names, k);
        } else {
          CleanStep(names, k);
          PageServable(names, k);
        }
      }
    }
  }

  lemma StartInStep(names: seq<Text>)
    ensures Turns(names, 0) == Browsing([], [], false) && InStep(names, Browsing([], [], false))
  {
    assert names[0..] == names;
  }

  lemma {:induction false} UncleanTurns(names: seq<Text>, n: nat)
    requires !CleanFrom(names, 0)
    ensures var b := Turns(names, n);
            Behind(names, b) || (InStep(names, b) && !CleanFrom(names, |b.all|))
    decreases n
  {
    hide PageCount;
    hide Turn;
    hide CleanCut;
    hide InStep;
    hide Behind;
    if n == 0 {
      StartInStep(names);
    } else {
      UncleanTurns(names, n - 1);
      var b := Turns(names, n - 1);
      if Behind(names, b) {
        BehindStays(names, b);
      } else {
        InStepBounds(names, b);
        StepInStep(names, b);
      }
    }
  }

  lemma InStepBounds(names: seq<Text>, b: Browsing)
    requires InStep(names, b)
    ensures |b.all| <= |names| && !b.done
  {
  }

  lemma BehindNotFinished(names: seq<Text>, b: Browsing)
    requires Behind(names, b) || InStep(names, b)
    ensures !Finished(names, b)
  {
    hide ServablePrefix;
  }

  /**
   * The client ends with the names in order, up to the first that no page can hold, if and only if every page but the
   * last ends in a clean cut. Otherwise it collects some names twice, or never ends.
   */
  lemma BrowsingExactly(names: seq<Text>)
    ensures (exists n :: Finished(names, Turns(names, n))) <==> CleanFrom(names, 0)
  {
    hide Finished;
    hide CleanFrom;
    hide Behind;
    hide InStep;
    hide Turns;
    if CleanFrom(names, 0) {
      CleanTurns(names, |names| + 1);
      assert Finished(names, Turns(names, |names| + 1));
    } else {
      forall n: nat ensures !Finished(names, Turns(names, n)) {
        UncleanTurns(names, n);
        BehindNotFinished(names, Turns(names, n));
      }
    }
  }

  // ---- Two listings that are never finished ----

  lemma BigName(name: Text, budget: int)
    requires budget < 2 + |name|
    ensures Admitted([name], budget) == 0
  {
  }

  lemma OnTheFirstPage(name: Text, rest: seq<Text>, budget: int)
    requires 2 + |name| <= budget
    ensures Admitted([name] + rest, budget) == 1 + Admitted(rest, budget - (2 + |name|))
  {
    assert ([name] + rest)[1..] == rest;
  }

  /** An empty name in front of one that fills a page. */
  lemma EmptyNameListed(n: nat)
    ensures var names := [[], Zeros(59998)];
            PageCount(names, 0) == 1 && Turns(names, n) == Browsing(Turns(names, n).all, [], false)
            && |Turns(names, n).all| == n
  {
    hide Admitted;
    hide Zeros;
    hide Turns;
    var big: Text := Zeros(59998);
    var names: seq<Text> := [[], big];
    assert names[0..] == [[]] + [big];
    OnTheFirstPage([], [big], MAX_RESPONSE_BYTES);
    BigName(big, MAX_RESPONSE_BYTES - 2);
    EmptyNameNeverEnds(names, n);
  }

  /** A name twice in front of one that fills a page. */
  lemma RepeatedNameListed(a: Text, n: nat)
    requires 0 < |a| < 1000
    ensures var names := [a, a, Zeros(59998)];
            PageCount(names, 0) == 2 && (n > 0 ==> !Turns(names, n).done && Turns(names, n).continueAfter == a)
  {
    hide Admitted;
    hide Zeros;
    hide Turns;
    var big: Text := Zeros(59998);
    var names: seq<Text> := [a, a, big];
    assert names[0..] == [a] + ([a] + [big]);
    OnTheFirstPage(a, [a] + [big], MAX_RESPONSE_BYTES);
    OnTheFirstPage(a, [big], MAX_RESPONSE_BYTES - (2 + |a|));
    OnTheFirstPage(a, [big], MAX_RESPONSE_BYTES);
    BigName(big, MAX_RESPONSE_BYTES - 2 * (2 + |a|));
    BigName(big, MAX_RESPONSE_BYTES - (2 + |a|));
    assert After(names, a) == [a] + [big];
    assert names[1] in names[..1] by {
      assert names[..1][0] == a;
    }
    RepeatedNameNeverEnds(names, n);
  }

  // ---- Size of a page ----

  /** Short names keep every response PDU within 60022 octets, below the 65000 both sides announce. */
  lemma PageSizeBound(names: seq<Text>, continueAfter: Text, invokeID: uint32)
    requires forall i :: 0 <= i < |names| ==> |names[i]| < 128
    ensures var page := PageOf(names, continueAfter);
            |BuildGetNameListResponse(invokeID, page.names, page.moreFollows)| <= 60022
  {
    hide BuildGetNameListResponse;
    var rest := Remaining(names, continueAfter);
    if continueAfter != [] {
      AfterKeepsShort(names, continueAfter);
    }
    AdmittedFacts(rest, MAX_RESPONSE_BYTES);
    var page := PageOf(names, continueAfter);
    EncodedNamesSize(page.names);
    ResponseSize(invokeID, page.names, page.moreFollows);
  }

  lemma {:induction false} AfterKeepsShort(names: seq<Text>, c: Text)
    requires forall i :: 0 <= i < |names| ==> |names[i]| < 128
    ensures forall i :: 0 <= i < |After(names, c)| ==> |After(names, c)[i]| < 128
  {
    if names != [] && names[0] != c {
      AfterKeepsShort(names[1..], c);
    }
  }

  lemma ResponseSize(invokeID: uint32, names: seq<Text>, moreFollows: bool)
    requires |EncodeNames(names)| <= 60000
    ensures |BuildGetNameListResponse(invokeID, names, moreFollows)| <= 60022
  {
    hide TwosComplement;
    hide UniversalTLV;
    Uint32RoundTrip(invokeID);
    IdSize(TwosComplement(invokeID));
    ShortSize(0, true, EncodeNames(names));
    ShortSize(1, false, [if moreFollows then 0xFF else 0x00]);
    PrimShortSize(0xA1, NameListContent(names, moreFollows));
    PrimShortSize(TAG_CONFIRMED_RESPONSE,
                  UniversalTLV(2, false, TwosComplement(invokeID))
                  + Service(SVC_GET_NAME_LIST, NameListContent(names, moreFollows)));
  }

  lemma ShortSize(tag: nat, constructed: bool, value: bytes)
    requires tag < 31 && |value| <= 0xFFFF
    ensures |ContextTLV(tag, constructed, value)| <= |value| + 4
    ensures |value| < 128 ==> |ContextTLV(tag, constructed, value)| == |value| + 2
  {
  }

  lemma PrimShortSize(tag: byte, content: bytes)
    requires |content| <= 0xFFFF
    ensures |Prim(tag, content)| <= |content| + 4
  {
  }
}
