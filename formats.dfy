/** convertTo: resolving the user's format token against the image library's
    table of type codes and names. Go visits the entries of a map in an
    unspecified order; `order` is the order of one such visit. */
module Formats {
  import opened Common

  /** The prefix of the error convertTo returns for a token it cannot resolve. */
  const UNSUPPORTED_PREFIX := "Cannot convert to an unsupported type "

  /** `order` lists every code of the table exactly once, as a Go `range` over it does. */
  predicate IsIterationOrder(types: map<int, string>, order: seq<int>)
  {
    && (forall i :: 0 <= i < |order| ==> order[i] in types)
    && (forall k :: k in types ==> k in order)
    && (forall i, j :: 0 <= i < j < |order| ==> order[i] != order[j])
  }

  /** The table gives every code its own name (as the image library's table does). */
  predicate DistinctNames(types: map<int, string>)
  {
    forall a, b :: a in types && b in types && types[a] == types[b] ==> a == b
  }

  /** Some code of the table is named `name`. */
  predicate HasName(types: map<int, string>, name: string)
  {
    exists k :: k in types && types[k] == name
  }

  /** The only alias convertTo knows: "jpg" stands for "jpeg". */
  function Normalize(token: string): (r: string)
    ensures r != "jpg"
    ensures token != "jpg" ==> r == token
  {
    if token == "jpg" then "jpeg" else token
  }

  /** The code the loop of convertTo leaves behind after visiting `order`: the
      last visited code named `name`, or the initial -1 when none is. */
  function LastMatch(types: map<int, string>, order: seq<int>, name: string): (code: int)
    requires forall i :: 0 <= i < |order| ==> order[i] in types
    ensures || (code in order && code in types && types[code] == name)
            || (code == -1 && forall i :: 0 <= i < |order| ==> types[order[i]] != name)
    decreases |order|
  {
    if order == [] then -1
    else if types[order[|order| - 1]] == name then order[|order| - 1]
    else LastMatch(types, order[..|order| - 1], name)
  }

  /** The code and error convertTo returns for `token`. */
  function Resolve(types: map<int, string>, order: seq<int>, token: string): (int, Option<string>)
    requires IsIterationOrder(types, order)
  {
    var name := Normalize(token);
    var code := LastMatch(types, order, name);
    (code, if code < 0 then Some(UNSUPPORTED_PREFIX + name) else None)
  }

  /** convertTo, visiting the table in `order`. */
  method ConvertTo(types: map<int, string>, order: seq<int>, imageType: string)
    returns (convtype: int, err: Option<string>)
    requires IsIterationOrder(types, order)
    ensures (convtype, err) == Resolve(types, order, imageType)
  {
    convtype := -1;
    err := None;
    var name := imageType;
    if name == "jpg" {
      name := "jpeg";
    }
    for i := 0 to |order|
      invariant convtype == LastMatch(types, order[..i], name)
    {
      assert order[..i + 1][..i] == order[..i];
      if types[order[i]] == name {
        convtype := order[i];
      }
    }
    assert order[..|order|] == order;
    if convtype < 0 {
      err := Some(UNSUPPORTED_PREFIX + name);
    }
  }

  /** "jpg" and "jpeg" resolve to the same code and the same error. */
  lemma JpgIsJpeg(types: map<int, string>, order: seq<int>)
    requires IsIterationOrder(types, order)
    ensures Resolve(types, order, "jpg") == Resolve(types, order, "jpeg")
  {
  }

  /** With non-negative codes, convertTo succeeds exactly when the normalised
      token is (case-sensitively) one of the table's names, and then returns a
      code of that name; otherwise it returns -1 and the unsupported-type error. */
  lemma ResolveSucceedsIff(types: map<int, string>, order: seq<int>, token: string)
    requires IsIterationOrder(types, order)
    requires forall k :: k in types ==> k >= 0
    ensures var (code, err) := Resolve(types, order, token);
      && (err == None <==> HasName(types, Normalize(token)))
      && (err == None ==> code in types && types[code] == Normalize(token))
      && (err != None ==> code == -1 && err == Some(UNSUPPORTED_PREFIX + Normalize(token)))
  {
    var name := Normalize(token);
    var code := LastMatch(types, order, name);
    if HasName(types, name) {
      var k :| k in types && types[k] == name;
      assert k in order;
      var i :| 0 <= i < |order| && order[i] == k;
      assert types[order[i]] == name;
    }
  }

  /** Success relies on the codes being non-negative: a token whose only
      entries have negative codes is reported unsupported although it was found. */
  lemma NegativeCodeIsUnsupported(types: map<int, string>, order: seq<int>, token: string)
    requires IsIterationOrder(types, order)
    requires forall k :: k in types && types[k] == Normalize(token) ==> k < 0
    ensures Resolve(types, order, token).1 == Some(UNSUPPORTED_PREFIX + Normalize(token))
  {
  }

  /** When the table's names are distinct, the order in which Go happens to
      visit the table does not change what convertTo returns. */
  lemma ResolveIgnoresOrder(types: map<int, string>, order1: seq<int>, order2: seq<int>, token: string)
    requires IsIterationOrder(types, order1) && IsIterationOrder(types, order2)
    requires DistinctNames(types)
    ensures Resolve(types, order1, token) == Resolve(types, order2, token)
  {
    var name := Normalize(token);
    var c1, c2 := LastMatch(types, order1, name), LastMatch(types, order2, name);
    if c1 in order1 && c1 in types && types[c1] == name {
      assert c1 in order2;
      var i :| 0 <= i < |order2| && order2[i] == c1;
      assert types[order2[i]] == name;
      assert c2 == c1;
    }
  }
}
