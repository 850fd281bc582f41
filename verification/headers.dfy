/** Multi-valued HTTP headers and the header merge the socket proxy applies
    to a backend response. Keys are taken as already canonical. */
module Headers {

  /** A header: each key maps to its list of values, in order. */
  type Header = map<string, seq<string>>

  /** The values of `k`, empty when `k` is absent. */
  function Values(h: Header, k: string): seq<string>
  {
    if k in h then h[k] else []
  }

  /** Go's `Header.Add`: appends `v` to the values of `k`, creating the key
      when needed, and touches no other key. */
  function Add(h: Header, k: string, v: string): (r: Header)
    ensures k in r && Values(r, k) == Values(h, k) + [v]
    ensures forall k' :: k' != k ==> (k' in r <==> k' in h) && (k' in h ==> r[k'] == h[k'])
  {
    h[k := Values(h, k) + [v]]
  }

  /** Adds the values `vv` to key `k` one after the other, as the inner loop
      of `copyHeader` does. */
  method AddValues(h: Header, k: string, vv: seq<string>) returns (r: Header)
    ensures Values(r, k) == Values(h, k) + vv
    ensures k in r <==> k in h || vv != []
    ensures forall k' :: k' != k ==> (k' in r <==> k' in h) && (k' in h ==> r[k'] == h[k'])
  {
    r := h;
    var i := 0;
    while i < |vv|
      invariant 0 <= i <= |vv|
      invariant Values(r, k) == Values(h, k) + vv[..i]
      invariant k in r <==> k in h || i > 0
      invariant forall k' :: k' != k ==> (k' in r <==> k' in h) && (k' in h ==> r[k'] == h[k'])
    {
      r := Add(r, k, vv[i]);
      assert vv[..i + 1] == vv[..i] + [vv[i]];
      i := i + 1;
    }
    assert vv[..|vv|] == vv;
  }

  /** `copyHeader`: adds every value of every key of `src` to `dst`. Each key
      ends with its old values followed by those of `src`, in order; nothing
      is overwritten. A key of `src` whose list is empty is never added, so it
      does not appear in the result unless `dst` already had it. */
  method CopyHeader(dst: Header, src: Header) returns (r: Header)
    ensures forall k :: Values(r, k) == Values(dst, k) + Values(src, k)
    ensures forall k :: k in r <==> k in dst || Values(src, k) != []
    ensures forall k :: k !in src ==> (k in r <==> k in dst) && (k in dst ==> r[k] == dst[k])
    ensures src == map[] ==> r == dst
  {
    r := dst;
    var keys := src.Keys;
    while keys != {}
      invariant keys <= src.Keys
      invariant forall k :: k in keys || k !in src ==> (k in r <==> k in dst) && (k in dst ==> r[k] == dst[k])
      invariant forall k :: k in src && k !in keys ==> Values(r, k) == Values(dst, k) + src[k]
      invariant forall k :: k in src && k !in keys ==> (k in r <==> k in dst || src[k] != [])
      decreases keys
    {
      var k :| k in keys;
      r := AddValues(r, k, src[k]);
      keys := keys - {k};
    }
    if src == map[] {
      assert r.Keys == dst.Keys;
    }
  }
}
