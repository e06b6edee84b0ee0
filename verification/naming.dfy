/**
 Resource naming: a unique name among the package's resources
 (`createUniqueResourceName`) and the name derived from a file path or a URL
 (`createNameFromPath`, `createNameFromUrl`).

 The slug (`convertToSlug`: Inflector's transliterate and parameterize) and
 Node's `path.basename` / `path.extname` are library code and reach the model
 as functions in a `PathLib`.
 */
module Naming {
  import opened Collections
  import opened Proxy

  /** A resource of the package; only its name matters here. */
  datatype Resource = Resource(name: string)

  /** The character of a decimal digit. */
  function DigitChar(d: nat): char
    requires d < 10
  {
    "0123456789"[d]
  }

  /** The numeric value of a decimal digit character, -1 for any other character. */
  function DigitValue(c: char): int {
    if '0' <= c <= '9' then c as int - '0' as int else -1
  }

  /** JavaScript's `'' + i` for a non-negative integer: its decimal digits, no leading zero. */
  function Decimal(n: nat): (r: string)
    ensures |r| > 0
    ensures forall i :: 0 <= i < |r| ==> 0 <= DigitValue(r[i]) < 10
    ensures |r| > 1 ==> r[0] != '0'
    decreases n
  {
    if n < 10 then [DigitChar(n)] else Decimal(n / 10) + [DigitChar(n % 10)]
  }

  /** The value of a string of decimal digits. */
  function DecimalValue(s: string): int
    decreases |s|
  {
    if s == [] then 0 else DecimalValue(s[..|s| - 1]) * 10 + DigitValue(s[|s| - 1])
  }

  /** Reading back the decimal digits gives the number. */
  lemma {:induction false} DecimalRoundTrip(n: nat)
    ensures DecimalValue(Decimal(n)) == n
    decreases n
  {
    var r := Decimal(n);
    if n < 10 {
      assert r[..0] == [];
      assert DigitValue(DigitChar(n)) == n;
    } else {
      DecimalRoundTrip(n / 10);
      assert r[..|r| - 1] == Decimal(n / 10);
      assert DigitValue(DigitChar(n % 10)) == n % 10;
    }
  }

  /** Distinct numbers have distinct decimal strings. */
  lemma DecimalInjective(m: nat, n: nat)
    requires Decimal(m) == Decimal(n)
    ensures m == n
  {
    DecimalRoundTrip(m);
    DecimalRoundTrip(n);
  }

  /** The k-th name tried: `name` itself, then `name-1`, `name-2`, … */
  function Candidate(name: string, k: nat): string {
    if k == 0 then name else name + "-" + Decimal(k)
  }

  /** Different attempts never produce the same name. */
  lemma CandidateInjective(name: string, i: nat, j: nat)
    requires Candidate(name, i) == Candidate(name, j)
    ensures i == j
  {
    if i != 0 && j != 0 {
      var n := |name| + 1;
      assert Candidate(name, i)[n..] == Decimal(i);
      assert Candidate(name, j)[n..] == Decimal(j);
      DecimalInjective(i, j);
    }
  }

  /** Some resource already has this name. */
  predicate Taken(resources: seq<Resource>, n: string) {
    exists i :: 0 <= i < |resources| && resources[i].name == n
  }

  /** The `_.find` callback: `item.name == result`. */
  function NamedAs(n: string): Resource -> bool {
    (item: Resource) => item.name == n
  }

  /** The set of names in use. */
  function NameSet(resources: seq<Resource>): (r: set<string>)
    ensures |r| <= |resources|
    ensures forall n :: n in r <==> Taken(resources, n)
    decreases |resources|
  {
    if resources == [] then {}
    else
      var init := resources[..|resources| - 1];
      var last := resources[|resources| - 1];
      assert forall n :: Taken(resources, n) <==> Taken(init, n) || last.name == n by {
        forall n ensures Taken(resources, n) <==> Taken(init, n) || last.name == n {
          if Taken(init, n) {
            var i :| 0 <= i < |init| && init[i].name == n;
            assert resources[i] == init[i];
          }
        }
      }
      NameSet(init) + {last.name}
  }

  /** The names of the first `m + 1` attempts. */
  function CandidateSet(name: string, m: nat): (r: set<string>)
    ensures |r| == m + 1
    ensures forall k :: 0 <= k <= m ==> Candidate(name, k) in r
    ensures forall s :: s in r ==> exists k :: 0 <= k <= m && s == Candidate(name, k)
    decreases m
  {
    if m == 0 then
      assert Candidate(name, 0) == name;
      {name}
    else
      var prev := CandidateSet(name, m - 1);
      assert Candidate(name, m) !in prev by {
        if Candidate(name, m) in prev {
          var k :| 0 <= k <= m - 1 && Candidate(name, m) == Candidate(name, k);
          CandidateInjective(name, m, k);
        }
      }
      prev + {Candidate(name, m)}
  }

  /**
   The attempts are pairwise distinct, so at most |resources| of them can be
   taken: if the first `m + 1` attempts are all taken, `m < |resources|`.
   */
  lemma Pigeonhole(name: string, resources: seq<Resource>, m: nat)
    requires forall k :: 0 <= k <= m ==> Taken(resources, Candidate(name, k))
    ensures m < |resources|
  {
    var tried := CandidateSet(name, m);
    var used := NameSet(resources);
    assert tried <= used;
    assert used == tried + (used - tried);
    assert |used| == |tried| + |used - tried|;
  }

  /**
   `name` is the first free attempt: it is the k-th attempt, it is free, and
   every earlier attempt is taken.
   */
  ghost predicate FirstFree(name: string, resources: seq<Resource>, result: string) {
    exists k :: 0 <= k <= |resources| && result == Candidate(name, k) && !Taken(resources, result)
      && forall j :: 0 <= j < k ==> Taken(resources, Candidate(name, j))
  }

  /**
   `createUniqueResourceName`: try `resourceName`, then `resourceName-1`,
   `resourceName-2`, … until no resource has the name. At most
   |resources| + 1 names are tried.
   */
  method CreateUniqueResourceName(resourceName: string, resources: seq<Resource>) returns (result: string)
    ensures !Taken(resources, result)
    ensures !Taken(resources, resourceName) ==> result == resourceName
    ensures FirstFree(resourceName, resources, result)
  {
    var i := 1;
    result := resourceName;
    while Find(resources, NamedAs(result)).Some?
      invariant 1 <= i <= |resources| + 1
      invariant result == Candidate(resourceName, i - 1)
      invariant forall j :: 0 <= j < i - 1 ==> Taken(resources, Candidate(resourceName, j))
      decreases |resources| + 1 - i
    {
      Pigeonhole(resourceName, resources, i - 1);
      result := resourceName + "-" + Decimal(i);
      i := i + 1;
    }
  }

  /** The first free attempt is a single name: the method's result is fully determined. */
  lemma FirstFreeIsUnique(name: string, resources: seq<Resource>, r1: string, r2: string)
    requires FirstFree(name, resources, r1) && FirstFree(name, resources, r2)
    ensures r1 == r2
  {
  }

  /** Node's `path` helpers and the slug, as library functions. */
  datatype PathLib = PathLib(basename: (string, string) -> string, extname: string -> string, slug: string -> string)

  /** `path.basename(fileName, path.extname(fileName))`: the file name without directory or extension. */
  function Stem(plib: PathLib, fileName: string): string {
    plib.basename(fileName, plib.extname(fileName))
  }

  /**
   `createNameFromPath`: the slug of the stem, or of the whole file name when
   the stem is empty. The fallback exists so that a non-empty file name (such
   as "/", whose basename is empty) never hands the slug an empty string.
   */
  function NameFromPath(plib: PathLib, fileName: string): (r: string)
    ensures Stem(plib, fileName) != "" ==> r == plib.slug(Stem(plib, fileName))
    ensures Stem(plib, fileName) == "" ==> r == plib.slug(fileName)
    ensures fileName != "" ==> exists x :: x != "" && r == plib.slug(x)
  {
    var stem := Stem(plib, fileName);
    plib.slug(if stem != "" then stem else fileName)
  }

  /**
   `createNameFromUrl`: the name from the path of the undecorated URL, or
   the URL as given when its path is missing or empty.
   */
  function NameFromUrl(lib: UrlLib, plib: PathLib, u: string): (r: string)
    ensures !(lib.parse(Undecorate(lib, u)).pathname.Some? && lib.parse(Undecorate(lib, u)).pathname.value != "")
            ==> r == u
    ensures lib.parse(Undecorate(lib, u)).pathname.Some? && lib.parse(Undecorate(lib, u)).pathname.value != ""
            ==> r == NameFromPath(plib, lib.parse(Undecorate(lib, u)).pathname.value)
  {
    var parsed := lib.parse(Undecorate(lib, u));
    if parsed.pathname.Some? && parsed.pathname.value != "" then
      NameFromPath(plib, parsed.pathname.value)
    else
      u
  }

  /**
   Going through the proxy does not change a resource's name: a decorated URL
   is named after the address it wraps.
   */
  lemma NameIgnoresProxy(lib: UrlLib, plib: PathLib, u: string)
    requires ProxyRoundTrips(lib)
    requires Undecorate(lib, u) != ""
    requires lib.parse(Undecorate(lib, u)).pathname.Some? && lib.parse(Undecorate(lib, u)).pathname.value != ""
    ensures NameFromUrl(lib, plib, Decorate(lib, u)) == NameFromUrl(lib, plib, u)
  {
  }

  /**
   The condition above is needed: an address that parses without a path is
   its own name, but once wrapped it is named after the whole proxy route,
   because the route's path is `/proxy` only before undecorating.
   */
  lemma PathlessAddressChangesName(lib: UrlLib, plib: PathLib, a: string)
    requires ProxyRoundTrips(lib)
    requires a != ""
    requires lib.parse(a) == ParsedUrl(None, None)
    ensures NameFromUrl(lib, plib, a) == a
    ensures NameFromUrl(lib, plib, Decorate(lib, a)) == Decorate(lib, a)
    ensures NameFromUrl(lib, plib, Decorate(lib, a)) != NameFromUrl(lib, plib, a)
  {
  }
}
