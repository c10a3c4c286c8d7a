/** Lists that run parallel to the per-record match lists: each match is looked up in a
    table (the Unicode character names, the emoji taxonomy) and the first lookup that
    fails, in record order, is the exception the extractor raises. */
module Enrichment {
  import opened Wrappers
  import opened Seqs
  import opened Strings
  import opened Extraction

  /** Applies a lookup that may fail to every element in order, stopping at the first failure. */
  function Traverse<A, B(==), E(==)>(f: A -> Result<B, E>, xs: seq<A>): (r: Result<seq<B>, E>)
    ensures r.Success? <==> forall i :: 0 <= i < |xs| ==> f(xs[i]).Success?
    ensures r.Success? ==> |r.value| == |xs| && forall i :: 0 <= i < |xs| ==> f(xs[i]) == Success(r.value[i])
    ensures r.Failure? ==> exists m :: 0 <= m < |xs| && f(xs[m]) == Failure(r.error) &&
                                       forall i :: 0 <= i < m ==> f(xs[i]).Success?
  {
    if xs == [] then Success([])
    else match f(xs[0])
      case Failure(e) => Failure(e)
      case Success(y) =>
        match Traverse(f, xs[1..])
        case Failure(e) =>
          var m :| 0 <= m < |xs[1..]| && f(xs[1..][m]) == Failure(e) && forall i :: 0 <= i < m ==> f(xs[1..][i]).Success?;
          assert f(xs[m + 1]) == Failure(e);
          assert forall i :: 1 <= i < m + 1 ==> f(xs[i]) == f(xs[1..][i - 1]);
          Failure(e)
        case Success(ys) => Success([y] + ys)
  }

  /** Traversing a concatenation traverses the first part, then the second. */
  lemma {:induction false} TraverseAppend<A, B, E>(f: A -> Result<B, E>, a: seq<A>, b: seq<A>)
    ensures Traverse(f, a + b) ==
      match Traverse(f, a)
      case Failure(e) => Failure(e)
      case Success(ya) =>
        match Traverse(f, b)
        case Failure(e) => Failure(e)
        case Success(yb) => Success(ya + yb)
  {
    if a == [] {
      assert a + b == b;
      match Traverse(f, b)
      case Failure(_) =>
      case Success(yb) =>
        assert [] + yb == yb;
    } else {
      assert (a + b)[1..] == a[1..] + b;
      assert (a + b)[0] == a[0];
      TraverseAppend(f, a[1..], b);
      match f(a[0])
      case Failure(_) =>
      case Success(y) =>
        match Traverse(f, a[1..])
        case Failure(_) =>
        case Success(ya) =>
          match Traverse(f, b)
          case Failure(_) =>
          case Success(yb) =>
            assert [y] + (ya + yb) == ([y] + ya) + yb;
    }
  }

  /** The per-record version, `[[f(x) for x in xs] for xs in xss]` where `f` may raise.
      It fails exactly when the flat traversal fails, with the same first error, and
      otherwise its record-order concatenation is the flat traversal: the per-record
      lists and the flat list of an extractor are consistent. */
  function TraverseLists<A, B(==), E(==)>(f: A -> Result<B, E>, xss: seq<seq<A>>): (r: Result<seq<seq<B>>, E>)
    ensures r.Success? ==> (|r.value| == |xss| &&
              forall i :: 0 <= i < |xss| ==> Traverse(f, xss[i]) == Success(r.value[i]))
    ensures r.Success? ==> Traverse(f, Flatten(xss)) == Success(Flatten(r.value))
    ensures r.Failure? ==> Traverse(f, Flatten(xss)) == Failure(r.error)
  {
    if xss == [] then Success([])
    else
      TraverseAppend(f, xss[0], Flatten(xss[1..]));
      match Traverse(f, xss[0])
      case Failure(e) => Failure(e)
      case Success(y) =>
        match TraverseLists(f, xss[1..])
        case Failure(e) => Failure(e)
        case Success(ys) =>
          var out := [y] + ys;
          assert out[1..] == ys;
          assert forall i :: 1 <= i < |xss| ==> xss[i] == xss[1..][i - 1];
          Success(out)
  }

  /** `unicodedata.name(c).lower()` for a match `c`, with the Unicode name table as a
      map: a match that is not one character is a `TypeError`, a character without a
      name a `ValueError`. */
  function NameOf(unicodeNames: map<char, string>, m: string): (r: Result<string, Error>)
    ensures r.Success? <==> |m| == 1 && m[0] in unicodeNames
    ensures r.Success? ==> r.value == Lower(unicodeNames[m[0]]) && IsLower(r.value)
    ensures r.Failure? ==> r.error == (if |m| == 1 then ValueError(m) else TypeError(m))
  {
    if |m| != 1 then Failure(TypeError(m))
    else if m[0] !in unicodeNames then Failure(ValueError(m))
    else
      LowerIsLower(unicodeNames[m[0]]);
      Success(Lower(unicodeNames[m[0]]))
  }

  /** `[[name(c).lower() for c in x] if x else [] for x in lists]`: the name lists have the
      shape of the match lists (an empty record gives an empty list), every name is the
      lower-cased Unicode name of its match, and the error is that of the first match,
      in record order, without a name. */
  function Names(lists: seq<seq<string>>, unicodeNames: map<char, string>): (r: Result<seq<seq<string>>, Error>)
    ensures r.Success? ==> (|r.value| == |lists| &&
              forall i :: 0 <= i < |lists| ==> (|r.value[i]| == |lists[i]| &&
                forall j :: 0 <= j < |lists[i]| ==> NameOf(unicodeNames, lists[i][j]) == Success(r.value[i][j])))
    ensures r.Success? <==> forall m :: m in Flatten(lists) ==> |m| == 1 && m[0] in unicodeNames
    ensures r.Failure? ==> exists k :: 0 <= k < |Flatten(lists)| &&
                             NameOf(unicodeNames, Flatten(lists)[k]) == Failure(r.error) &&
                             forall i :: 0 <= i < k ==> NameOf(unicodeNames, Flatten(lists)[i]).Success?
  {
    var f := (m: string) => NameOf(unicodeNames, m);
    var r := TraverseLists(f, lists);
    var flatR := Traverse(f, Flatten(lists));
    assert flatR.Success? <==> forall m :: m in Flatten(lists) ==> f(m).Success? by {
      if flatR.Success? {
        assert forall i :: 0 <= i < |Flatten(lists)| ==> f(Flatten(lists)[i]).Success?;
      } else {
        var k :| 0 <= k < |Flatten(lists)| && f(Flatten(lists)[k]) == Failure(flatR.error) &&
                 forall i :: 0 <= i < k ==> f(Flatten(lists)[i]).Success?;
        assert Flatten(lists)[k] in Flatten(lists);
      }
    }
    r
  }
}
