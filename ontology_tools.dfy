/** The domain-bridge tool: maps a problem description written in domain
    jargon to an abstract mathematical problem, by an ordered keyword table. */
module OntologyTools {
  import opened TextUtil

  /** The keyword table, in its declared (and searched) order. */
  const Mappings: seq<(string, string)> := [
    ("protein folding", "3D structural optimization in continuous space"),
    ("traffic flow", "Fluid dynamics optimization on a graph"),
    ("market prediction", "Time-series forecasting with non-stationary distributions"),
    ("gene editing", "Sequence pattern matching and substitution"),
    ("climate modeling", "Partial differential equation solving on a sphere")
  ]

  const FallbackPrefix := "Abstract optimization problem based on: "

  /** The value of the first entry, in table order, whose key occurs in `text`. */
  function FirstMatch(table: seq<(string, string)>, text: string): (r: Option<string>)
    ensures r.Some? ==> exists i :: 0 <= i < |table| && r.value == table[i].1
  {
    if table == [] then None
    else if Contains(text, table[0].0) then Some(table[0].1)
    else
      var r := FirstMatch(table[1..], text);
      assert r.Some? ==> exists i :: 0 <= i < |table| && r.value == table[i].1 by {
        if r.Some? {
          var i :| 0 <= i < |table| - 1 && r.value == table[1..][i].1;
          assert r.value == table[i + 1].1;
        }
      }
      r
  }

  /** `canonicalize_problem`: the abstraction of the first keyword found in
      the lower-cased description, else a fallback quoting the description
      as given. */
  function CanonicalizeProblem(description: string): (r: string)
    ensures r == FallbackPrefix + description
            || exists i :: 0 <= i < |Mappings| && r == Mappings[i].1
  {
    match FirstMatch(Mappings, Lower(description))
    case Some(v) => v
    case None => FallbackPrefix + description
  }

  // ---------------------------------------------------------------------
  // Properties
  // ---------------------------------------------------------------------

  /** First match wins: the entry at `i` is chosen exactly when its key occurs
      and no earlier key does. */
  lemma {:induction false} FirstMatchIsEarliest(table: seq<(string, string)>, text: string, i: nat)
    requires i < |table| && Contains(text, table[i].0)
    requires forall j :: 0 <= j < i ==> !Contains(text, table[j].0)
    ensures FirstMatch(table, text) == Some(table[i].1)
  {
    if i > 0 {
      FirstMatchIsEarliest(table[1..], text, i - 1);
    }
  }

  /** No entry is chosen exactly when no key occurs. */
  lemma {:induction false} FirstMatchNone(table: seq<(string, string)>, text: string)
    ensures FirstMatch(table, text).None?
            <==> forall j :: 0 <= j < |table| ==> !Contains(text, table[j].0)
  {
    if table != [] {
      FirstMatchNone(table[1..], text);
      assert forall j :: 1 <= j < |table| ==> table[1..][j - 1] == table[j];
    }
  }

  /** The two outcomes, characterised: with no keyword in the lower-cased
      description the fallback quotes the description as given; otherwise the
      abstraction of the earliest keyword present is returned. */
  lemma CanonicalizeOutcomes(description: string)
    ensures (forall j :: 0 <= j < |Mappings| ==> !Contains(Lower(description), Mappings[j].0))
            ==> CanonicalizeProblem(description) == FallbackPrefix + description
    ensures forall i :: 0 <= i < |Mappings| && Contains(Lower(description), Mappings[i].0)
                        && (forall j :: 0 <= j < i ==> !Contains(Lower(description), Mappings[j].0))
                        ==> CanonicalizeProblem(description) == Mappings[i].1
  {
    FirstMatchNone(Mappings, Lower(description));
    forall i | 0 <= i < |Mappings| && Contains(Lower(description), Mappings[i].0)
               && (forall j :: 0 <= j < i ==> !Contains(Lower(description), Mappings[j].0))
      ensures CanonicalizeProblem(description) == Mappings[i].1
    {
      FirstMatchIsEarliest(Mappings, Lower(description), i);
    }
  }

  /** The protein-folding entry is first, so it beats every other keyword,
      climate modelling included. */
  lemma ProteinFoldingWins(description: string)
    requires Contains(Lower(description), "protein folding")
    ensures CanonicalizeProblem(description) == "3D structural optimization in continuous space"
  {
    FirstMatchIsEarliest(Mappings, Lower(description), 0);
  }

  /** Climate modelling, last in the table, is chosen only when no other keyword occurs. */
  lemma ClimateModelingLast(description: string)
    requires Contains(Lower(description), "climate modeling")
    ensures CanonicalizeProblem(description) == "Partial differential equation solving on a sphere"
            <==> forall j :: 0 <= j < 4 ==> !Contains(Lower(description), Mappings[j].0)
  {
    var text := Lower(description);
    if forall j :: 0 <= j < 4 ==> !Contains(text, Mappings[j].0) {
      FirstMatchIsEarliest(Mappings, text, 4);
    } else {
      var j :| 0 <= j < 4 && Contains(text, Mappings[j].0);
      var i := if Contains(text, Mappings[0].0) then 0
               else if Contains(text, Mappings[1].0) then 1
               else if Contains(text, Mappings[2].0) then 2
               else 3;
      FirstMatchIsEarliest(Mappings, text, i);
    }
  }

  /** Matching ignores letter case: descriptions that agree once lower-cased
      map to the same abstraction whenever some keyword occurs. */
  lemma CaseInsensitive(d1: string, d2: string)
    requires Lower(d1) == Lower(d2)
    requires exists j :: 0 <= j < |Mappings| && Contains(Lower(d1), Mappings[j].0)
    ensures CanonicalizeProblem(d1) == CanonicalizeProblem(d2)
  {
    FirstMatchNone(Mappings, Lower(d1));
  }
}
