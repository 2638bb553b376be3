/** Octet strings and the parts of `std::string` the modelled code uses. */
module Octets {
  import opened Options

  newtype Byte = b: int | 0 <= b < 256

  type Bytes = seq<Byte>

  /** `needle` occurs in `hay` at offset `i`. */
  predicate At(hay: Bytes, needle: Bytes, i: nat) {
    i + |needle| <= |hay| && hay[i..i + |needle|] == needle
  }

  /** `std::string::find(needle, from)`, with `npos` as `None`. */
  function Find(hay: Bytes, needle: Bytes, from: nat): (r: Option<nat>)
    ensures r.Some? ==> from <= r.value && At(hay, needle, r.value)
    ensures r.Some? ==> forall i :: from <= i < r.value ==> !At(hay, needle, i)
    ensures r.None? ==> forall i: nat :: from <= i ==> !At(hay, needle, i)
    decreases |hay| - from
  {
    if from + |needle| > |hay| then None
    else if At(hay, needle, from) then Some(from)
    else Find(hay, needle, from + 1)
  }

  /** The least offset at which `needle` occurs is what `Find` returns. */
  lemma FindIs(hay: Bytes, needle: Bytes, from: nat, i: nat)
    requires from <= i && At(hay, needle, i)
    requires forall j :: from <= j < i ==> !At(hay, needle, j)
    ensures Find(hay, needle, from) == Some(i)
  {}

  /** `strncmp(a, b, n) == 0`: the comparison stops at a shared NUL. */
  predicate SameUpToNul(a: Bytes, b: Bytes, n: nat)
    requires n <= |a| && n <= |b|
    decreases n
  {
    n == 0 || (a[0] == b[0] && (a[0] == 0 || SameUpToNul(a[1..], b[1..], n - 1)))
  }

  /** So it says whether the two agree on `n` octets, or up to and with a NUL before that. */
  lemma {:induction false} SameUpToNulMeans(a: Bytes, b: Bytes, n: nat)
    requires n <= |a| && n <= |b|
    ensures SameUpToNul(a, b, n) <==>
            a[..n] == b[..n] || exists k :: 0 <= k < n && a[k] == 0 && a[..k + 1] == b[..k + 1]
    decreases n
  {
    if n > 0 {
      SameUpToNulMeans(a[1..], b[1..], n - 1);
      assert a[..n] == [a[0]] + a[1..][..n - 1] && b[..n] == [b[0]] + b[1..][..n - 1];
      forall k | 0 <= k < n - 1
        ensures a[1..][k] == a[k + 1]
        ensures a[..k + 2] == [a[0]] + a[1..][..k + 1] && b[..k + 2] == [b[0]] + b[1..][..k + 1]
      {}
      if SameUpToNul(a, b, n) && a[..n] != b[..n] {
        if a[0] == 0 {
          assert a[..0 + 1] == [a[0]] && b[..0 + 1] == [b[0]];
        } else {
          var k :| 0 <= k < n - 1 && a[1..][k] == 0 && a[1..][..k + 1] == b[1..][..k + 1];
          assert a[k + 1] == 0 && a[..k + 1 + 1] == b[..k + 1 + 1];
        }
      }
      if k :| 0 <= k < n && a[k] == 0 && a[..k + 1] == b[..k + 1] {
        assert a[0] == a[..k + 1][0] == b[..k + 1][0] == b[0];
        if k > 0 {
          assert a[1..][k - 1] == 0;
          assert a[1..][..k] == a[..k + 1][1..] && b[1..][..k] == b[..k + 1][1..];
        }
      }
    }
  }

  /** The decimal rendering of a non-negative integer. */
  function Digits(n: nat): (r: Bytes)
    ensures |r| > 0
  {
    if n < 10 then [48 + n as Byte] else Digits(n / 10) + [48 + (n % 10) as Byte]
  }

  /** `std::to_string` and `ostream << int`. */
  function Decimal(n: int): Bytes {
    if n < 0 then [45] + Digits(-n) else Digits(n)
  }

  // ----- names -----

  /** The octets of a name, and the name of octets. */
  function OctetsOf(name: string): Bytes {
    seq(|name|, i requires 0 <= i < |name| => (name[i] as int % 256) as Byte)
  }

  function NameOf(data: Bytes): string {
    seq(|data|, i requires 0 <= i < |data| => data[i] as char)
  }

  /** Names are strings of octets. */
  predicate IsOctets(name: string) {
    forall i :: 0 <= i < |name| ==> name[i] as int < 256
  }

  lemma NameRoundTrip(name: string)
    requires IsOctets(name)
    ensures NameOf(OctetsOf(name)) == name
    ensures |OctetsOf(name)| == |name| && forall i :: 0 <= i < |name| ==> OctetsOf(name)[i] as char == name[i]
  {}

  // ----- chunks -----

  function Concat(chunks: seq<Bytes>): Bytes {
    if chunks == [] then [] else chunks[0] + Concat(chunks[1..])
  }

  lemma {:induction false} ConcatAppend(a: seq<Bytes>, b: seq<Bytes>)
    ensures Concat(a + b) == Concat(a) + Concat(b)
    decreases |a|
  {
    if a == [] {
      assert a + b == b;
    } else {
      assert (a + b)[1..] == a[1..] + b;
      ConcatAppend(a[1..], b);
      assert a[0] + (Concat(a[1..]) + Concat(b)) == a[0] + Concat(a[1..]) + Concat(b);
    }
  }

  lemma ConcatOne(chunk: Bytes)
    ensures Concat([chunk]) == chunk
    ensures Concat([chunk] + []) == chunk
  {
    assert [chunk][1..] == [] && chunk + [] == chunk && [chunk] + [] == [chunk];
  }

  /** What the chunks from `k` on come to. */
  lemma ConcatFrom(chunks: seq<Bytes>, k: nat)
    requires k < |chunks|
    ensures Concat(chunks[k..]) == chunks[k] + Concat(chunks[k + 1..])
  {
    assert chunks[k..][1..] == chunks[k + 1..];
  }
}
