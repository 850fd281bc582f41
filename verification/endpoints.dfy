/** The endpoint set: the peer addresses used to seed the cluster join and
    listed by `/endpoints`. Insertion and removal are idempotent set updates. */
module Endpoints {
  import Text

  type EndpointSet = set<string>

  /** The loopback address, which the listing hides. */
  const Loopback: string := "127.0.0.1"

  /** The default value of the comma-separated seed list (the `-n` flag). */
  const DefaultNodes: string := "127.0.0.1"

  /** Inserts `a`; inserting a present address changes nothing. */
  function Add(s: EndpointSet, a: string): (r: EndpointSet)
    ensures a in r
    ensures forall x :: x != a ==> (x in r <==> x in s)
    ensures a in s ==> r == s
  {
    s + {a}
  }

  /** Deletes `a`; deleting an absent address changes nothing. */
  function Remove(s: EndpointSet, a: string): (r: EndpointSet)
    ensures a !in r
    ensures forall x :: x != a ==> (x in r <==> x in s)
    ensures a !in s ==> r == s
  {
    s - {a}
  }

  /** The set built by adding each address of `addrs` in turn: exactly the
      distinct elements of the list. */
  function FromList(addrs: seq<string>): (r: EndpointSet)
    ensures forall a :: a in r <==> a in addrs
    ensures |r| <= |addrs|
  {
    if addrs == [] then {}
    else
      var init := FromList(addrs[..|addrs| - 1]);
      assert addrs == addrs[..|addrs| - 1] + [addrs[|addrs| - 1]];
      Add(init, addrs[|addrs| - 1])
  }

  /** The seed set built from the comma-separated `-n` flag value. */
  function Seed(nodes: string): (r: EndpointSet)
    ensures forall a :: a in r <==> a in Text.Split(nodes, ',')
    ensures |r| <= |Text.Split(nodes, ',')|
  {
    FromList(Text.Split(nodes, ','))
  }

  /** With the default flag value the seed set is the loopback address alone. */
  lemma DefaultSeedIsLoopback()
    ensures Seed(DefaultNodes) == {Loopback}
  {
    assert ',' !in DefaultNodes;
    assert Text.Split(DefaultNodes, ',') == [DefaultNodes];
  }

  /** No element occurs twice in `s`. */
  predicate NoDuplicates(s: seq<string>)
  {
    forall i, j :: 0 <= i < j < |s| ==> s[i] != s[j]
  }

  /** A list without repeats has as many distinct elements as entries. */
  lemma {:induction false} DistinctLength(r: seq<string>)
    requires NoDuplicates(r)
    ensures |FromList(r)| == |r|
  {
    if r != [] {
      var init := r[..|r| - 1];
      assert NoDuplicates(init);
      DistinctLength(init);
      assert r[|r| - 1] !in init;
      assert r[|r| - 1] !in FromList(init);
    }
  }

  /** Lists the members of `s` once each, in no particular order (the
      generated set's `ToSlice`). */
  method ToSlice(s: EndpointSet) returns (r: seq<string>)
    ensures forall x :: x in r <==> x in s
    ensures NoDuplicates(r)
    ensures |r| == |s|
  {
    r := [];
    var rest := s;
    while rest != {}
      invariant rest <= s
      invariant forall x :: x in r <==> x in s - rest
      invariant NoDuplicates(r)
      decreases rest
    {
      var e :| e in rest;
      assert e !in r;
      r := r + [e];
      rest := rest - {e};
    }
    DistinctLength(r);
    assert FromList(r) == s;
  }

  /** The addresses the `/endpoints` handler reports: every member of `s`
      except the loopback address, once each, in no particular order. */
  method Listing(s: EndpointSet) returns (ep: seq<string>)
    ensures forall x :: x in ep <==> x in s && x != Loopback
    ensures NoDuplicates(ep)
    ensures |ep| == |s - {Loopback}|
  {
    ep := [];
    var rest := s;
    while rest != {}
      invariant rest <= s
      invariant forall x :: x in ep <==> x in s - rest && x != Loopback
      invariant NoDuplicates(ep)
      decreases rest
    {
      var e :| e in rest;
      if e != Loopback {
        assert e !in ep;
        ep := ep + [e];
      }
      rest := rest - {e};
    }
    DistinctLength(ep);
    assert FromList(ep) == s - {Loopback};
  }

  /** A JSON value as the listing handler marshals it: a nil Go slice becomes
      `null`, any other slice an array of strings. */
  datatype Json = Null | Strings(items: seq<string>)

  /** The body of the `/endpoints` response. The slice starts out nil and
      only becomes non-nil when an address is appended, so a set holding
      nothing but loopback is reported as `null`, not as an empty array. */
  method ListingBody(s: EndpointSet) returns (body: Json)
    ensures body.Null? <==> s <= {Loopback}
    ensures body.Strings? ==> forall x :: x in body.items <==> x in s && x != Loopback
    ensures body.Strings? ==> NoDuplicates(body.items) && |body.items| >= 1
  {
    var ep := Listing(s);
    if ep == [] {
      body := Null;
    } else {
      body := Strings(ep);
    }
  }

  /** With the default seed, `/endpoints` reports `null`. */
  method DefaultListing() returns (body: Json)
    ensures body == Null
  {
    DefaultSeedIsLoopback();
    body := ListingBody(Seed(DefaultNodes));
  }
}
