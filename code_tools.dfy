/** The reproducibility tools: pulling fenced code blocks out of markdown
    text, and the mock dependency-compatibility check. */
module CodeTools {
  import opened TextUtil

  // ---------------------------------------------------------------------
  // Fences and the pattern ```(?:python)?(.*?)``` under re.DOTALL
  // ---------------------------------------------------------------------

  /** Three backticks start at position `i` of `t`. */
  predicate FenceAt(t: string, i: int) {
    0 <= i && i + 3 <= |t| && t[i] == '`' && t[i + 1] == '`' && t[i + 2] == '`'
  }

  predicate NoFence(t: string) {
    forall j :: 0 <= j < |t| ==> !FenceAt(t, j)
  }

  /** The optional language tag `python` starts at position `i`. */
  predicate TagAt(t: string, i: nat) {
    i + 6 <= |t| && t[i..i + 6] == "python"
  }

  /** The lazy `.*?` followed by a fence: the nearest fence at or after `i`. */
  function NextFence(t: string, i: nat): (r: Option<nat>)
    decreases |t| - i
    ensures r.Some? ==> i <= r.value && FenceAt(t, r.value)
    ensures r.Some? ==> forall j :: i <= j < r.value ==> !FenceAt(t, j)
    ensures r.None? ==> forall j :: i <= j ==> !FenceAt(t, j)
  {
    if i + 3 > |t| then None
    else if FenceAt(t, i) then Some(i)
    else NextFence(t, i + 1)
  }

  /** One attempt of the pattern at position `p`: where the captured text
      starts and where its closing fence stands. The `python` tag is tried
      first; when no closing fence follows it, the regex backtracks to just
      after the opening fence, which finds none either, since the tag holds
      no backtick. So a present tag is always left out of the capture. */
  function MatchAt(t: string, p: nat): (r: Option<(nat, nat)>)
    ensures r.Some? <==> FenceAt(t, p) && NextFence(t, p + 3).Some?
    ensures r.Some? ==> p + 3 <= r.value.0 <= r.value.1 && FenceAt(t, r.value.1)
    ensures r.Some? ==> r.value.0 == (if TagAt(t, p + 3) then p + 9 else p + 3)
    ensures r.Some? ==> forall j :: p + 3 <= j < r.value.1 ==> !FenceAt(t, j)
  {
    if !FenceAt(t, p) then None
    else
      var tagged := if TagAt(t, p + 3) then NextFence(t, p + 9) else None;
      if tagged.Some? then
        assert forall j :: p + 3 <= j < p + 9 ==> t[j] != '`' by {
          assert t[p + 3..p + 9] == "python";
          forall j | p + 3 <= j < p + 9 ensures t[j] != '`' {
            assert t[j] == t[p + 3..p + 9][j - p - 3];
          }
        }
        FirstFence(t, p + 3, tagged.value);
        Some((p + 9, tagged.value))
      else
        match NextFence(t, p + 3)
        case Some(q) => Some((p + 3, q))
        case None => None
  }

  /** `re.findall` from position `p`: try the pattern at each position in
      turn; after a match, resume just past its closing fence. */
  function FindAll(t: string, p: nat): (r: seq<string>)
    decreases |t| - p
  {
    if p >= |t| then []
    else
      match MatchAt(t, p)
      case Some((s, q)) => [t[s..q]] + FindAll(t, q + 3)
      case None => FindAll(t, p + 1)
  }

  function StripAll(xs: seq<string>): (r: seq<string>)
    ensures |r| == |xs|
    ensures forall k :: 0 <= k < |xs| ==> r[k] == Strip(xs[k])
  {
    if xs == [] then [] else [Strip(xs[0])] + StripAll(xs[1..])
  }

  /** `extract_code_blocks`: every captured block, stripped of surrounding whitespace. */
  function ExtractCodeBlocks(text: string): (r: seq<string>)
    ensures forall k :: 0 <= k < |r| ==> IsStripped(r[k])
  {
    StripAll(FindAll(text, 0))
  }

  // ---------------------------------------------------------------------
  // Properties of the extractor
  // ---------------------------------------------------------------------

  /** Text without a fence from position `p` on yields no block. */
  lemma {:induction false} NoFenceNoMatches(t: string, p: nat)
    requires forall j :: p <= j ==> !FenceAt(t, j)
    ensures FindAll(t, p) == []
    decreases |t| - p
  {
    if p < |t| {
      NoFenceNoMatches(t, p + 1);
    }
  }

  lemma NoFenceNoBlocks(text: string)
    requires NoFence(text)
    ensures ExtractCodeBlocks(text) == []
  {
    NoFenceNoMatches(text, 0);
  }

  /** An opening fence with no fence after it contributes nothing, and
      nothing after it is captured either. */
  lemma {:induction false} UnmatchedFenceContributesNothing(t: string, p: nat)
    requires FenceAt(t, p)
    requires forall j :: p + 3 <= j ==> !FenceAt(t, j)
    ensures FindAll(t, p) == []
    decreases |t| - p
  {
    assert MatchAt(t, p).None?;
    var k := p + 1;
    while k < p + 3 && k < |t|
      invariant p + 1 <= k <= p + 3
      invariant FindAll(t, p) == FindAll(t, k)
      decreases p + 3 - k
    {
      assert MatchAt(t, k).None? by {
        if FenceAt(t, k) {
          assert NextFence(t, k + 3).None?;
          assert TagAt(t, k + 3) ==> NextFence(t, k + 9).None?;
        }
      }
      k := k + 1;
    }
    NoFenceNoMatches(t, k);
  }

  /** Every captured block (before stripping) holds no fence: it ends at the
      nearest fence after its opening one. */
  lemma {:induction false} CapturedBlocksFenceFree(t: string, p: nat)
    ensures forall b :: b in FindAll(t, p) ==> NoFence(b)
    decreases |t| - p
  {
    if p < |t| {
      match MatchAt(t, p)
      case Some((s, q)) =>
        CapturedBlocksFenceFree(t, q + 3);
        var b := t[s..q];
        forall j ensures !FenceAt(b, j) {
          if j >= 0 {
            SliceFence(t, s, q, j);
          }
        }
      case None =>
        CapturedBlocksFenceFree(t, p + 1);
    }
  }

  /** Matches do not overlap: each one spends an opening and a closing
      fence, six characters in all. */
  lemma {:induction false} FindAllBound(t: string, p: nat)
    requires p <= |t|
    ensures 6 * |FindAll(t, p)| <= |t| - p
    decreases |t| - p
  {
    if p < |t| {
      match MatchAt(t, p)
      case Some((s, q)) => FindAllBound(t, q + 3);
      case None => FindAllBound(t, p + 1);
    }
  }

  /** A fence inside a slice is a fence of the whole text. */
  lemma SliceFence(t: string, s: nat, q: nat, j: nat)
    requires s <= q <= |t|
    ensures FenceAt(t[s..q], j) ==> FenceAt(t, s + j)
  {
    if FenceAt(t[s..q], j) {
      assert t[s + j] == t[s..q][j] && t[s + j + 1] == t[s..q][j + 1] && t[s + j + 2] == t[s..q][j + 2];
    }
  }

  // ---------------------------------------------------------------------
  // Round trip: extracting from rendered markdown gives the bodies back
  // ---------------------------------------------------------------------

  /** A markdown document as a sequence of prose runs and fenced code
      blocks, each opened either with ```python or with a bare ```. */
  datatype Segment = Prose(text: string) | Code(tagged: bool, body: string)

  /** The opening line of a code block. */
  function Opening(tagged: bool): (s: string)
    ensures FenceAt(s, 0) && s[|s| - 1] == '\n'
    ensures |s| == if tagged then 10 else 4
  {
    if tagged then "```python\n" else "```\n"
  }

  function Render(doc: seq<Segment>): (t: string)
  {
    if doc == [] then []
    else
      match doc[0]
      case Prose(x) => x + Render(doc[1..])
      case Code(tagged, b) => Opening(tagged) + b + "\n```" + Render(doc[1..])
  }

  function Bodies(doc: seq<Segment>): (r: seq<string>)
    ensures |r| <= |doc|
  {
    if doc == [] then []
    else
      match doc[0]
      case Prose(_) => Bodies(doc[1..])
      case Code(_, b) => [b] + Bodies(doc[1..])
  }

  /** Prose holds no backtick; a code body holds no fence and no surrounding whitespace. */
  predicate Renderable(doc: seq<Segment>) {
    forall k :: 0 <= k < |doc| ==>
      match doc[k]
      case Prose(x) => '`' !in x
      case Code(_, b) => NoFence(b) && IsStripped(b)
  }

  /** The scan is blind to what comes before `pre`: it only ever looks forward. */
  lemma {:induction false} NextFenceShift(pre: string, t: string, i: nat)
    ensures NextFence(pre + t, |pre| + i) == (match NextFence(t, i)
                                              case Some(q) => Some(|pre| + q)
                                              case None => None)
    decreases |t| - i
  {
    var u := pre + t;
    if i + 3 <= |t| {
      assert u[|pre| + i] == t[i] && u[|pre| + i + 1] == t[i + 1] && u[|pre| + i + 2] == t[i + 2];
      if !FenceAt(t, i) {
        NextFenceShift(pre, t, i + 1);
      }
    }
  }

  lemma MatchAtShift(pre: string, t: string, p: nat)
    ensures MatchAt(pre + t, |pre| + p) == (match MatchAt(t, p)
                                            case Some((s, q)) => Some((|pre| + s, |pre| + q))
                                            case None => None)
  {
    var u := pre + t;
    assert FenceAt(u, |pre| + p) == FenceAt(t, p) by {
      if p + 3 <= |t| {
        assert u[|pre| + p] == t[p] && u[|pre| + p + 1] == t[p + 1] && u[|pre| + p + 2] == t[p + 2];
      }
    }
    assert TagAt(u, |pre| + p + 3) == TagAt(t, p + 3) by {
      if p + 9 <= |t| {
        assert u[|pre| + p + 3..|pre| + p + 9] == t[p + 3..p + 9];
      }
    }
    NextFenceShift(pre, t, p + 3);
    NextFenceShift(pre, t, p + 9);
  }

  lemma {:induction false} FindAllShift(pre: string, t: string, p: nat)
    ensures FindAll(pre + t, |pre| + p) == FindAll(t, p)
    decreases |t| - p
  {
    if p < |t| {
      var m := MatchAt(t, p);
      if m.Some? {
        var q := m.value.1;
        assert p < q + 3;
        FindAllShift(pre, t, q + 3);
        FindAllShiftMatch(pre, t, p, m.value.0, q);
      } else {
        FindAllShift(pre, t, p + 1);
        FindAllShiftSkip(pre, t, p);
      }
    }
  }

  /** One non-matching step of the shifted scan, given the rest of the scan. */
  lemma FindAllShiftSkip(pre: string, t: string, p: nat)
    requires p < |t| && MatchAt(t, p).None?
    requires FindAll(pre + t, |pre| + p + 1) == FindAll(t, p + 1)
    ensures FindAll(pre + t, |pre| + p) == FindAll(t, p)
  {
    MatchAtShift(pre, t, p);
  }

  /** One matching step of the shifted scan, given the rest of the scan. */
  lemma FindAllShiftMatch(pre: string, t: string, p: nat, s: nat, q: nat)
    requires p < |t| && MatchAt(t, p) == Some((s, q))
    requires FindAll(pre + t, |pre| + q + 3) == FindAll(t, q + 3)
    ensures FindAll(pre + t, |pre| + p) == FindAll(t, p)
  {
    var u := pre + t;
    MatchAtShift(pre, t, p);
    ShiftedSlice(pre, t, s, q);
    FindAllSameMatch(u, |pre| + p, |pre| + s, |pre| + q, t, p, s, q);
  }

  /** Two scans that match the same text at their current positions and
      agree from just past their closing fences agree from here on. */
  lemma FindAllSameMatch(u: string, a: nat, s1: nat, q1: nat, t: string, b: nat, s2: nat, q2: nat)
    requires a < |u| && MatchAt(u, a) == Some((s1, q1))
    requires b < |t| && MatchAt(t, b) == Some((s2, q2))
    requires u[s1..q1] == t[s2..q2] && FindAll(u, q1 + 3) == FindAll(t, q2 + 3)
    ensures FindAll(u, a) == FindAll(t, b)
  {
    assert FindAll(u, a) == [u[s1..q1]] + FindAll(u, q1 + 3);
    assert FindAll(t, b) == [t[s2..q2]] + FindAll(t, q2 + 3);
  }

  lemma ShiftedSlice(pre: string, t: string, s: nat, q: nat)
    requires s <= q <= |t|
    ensures (pre + t)[|pre| + s..|pre| + q] == t[s..q]
  {
    var u := pre + t;
    assert u[|pre|..] == t;
    assert u[|pre|..][s..q] == u[|pre| + s..|pre| + q];
  }

  /** Positions inside backtick-free prose match nothing. */
  lemma {:induction false} SkipProse(x: string, rest: string, i: nat)
    requires '`' !in x && i <= |x|
    ensures FindAll(x + rest, i) == FindAll(rest, 0)
    decreases |x| - i
  {
    var u := x + rest;
    if i == |x| {
      assert FindAll(u, |x| + 0) == FindAll(rest, 0) by { FindAllShift(x, rest, 0); }
    } else {
      assert u[i] == x[i];
      assert !FenceAt(u, i);
      SkipProse(x, rest, i + 1);
    }
  }

  /** A rendered block, tagged or bare, is captured whole, opening line
      excluded, and the scan resumes after it. */
  lemma RenderedBlock(tagged: bool, b: string, rest: string)
    requires NoFence(b)
    ensures var u := Opening(tagged) + b + "\n```" + rest;
            FindAll(u, 0) == ["\n" + b + "\n"] + FindAll(rest, 0)
  {
    var open, close := Opening(tagged), "\n```";
    var u := open + b + close + rest;
    var s, q := |open| - 1, |open| + |b| + 1;
    assert FenceAt(u, 0) by { assert u[..|open|] == open; }
    assert u[s] == '\n' by { assert u[..|open|] == open; }
    assert FenceAt(u, q) by {
      assert u[q] == '`' && u[q + 1] == '`' && u[q + 2] == '`';
    }
    forall j | s <= j < q ensures !FenceAt(u, j) {
      if j == s || j >= q - 3 {
        var k := if j == s then s else q - 1;
        assert u[k] == '\n';
      } else {
        var i := j - |open|;
        assert u[j] == b[i] && u[j + 1] == b[i + 1] && u[j + 2] == b[i + 2];
        assert !FenceAt(b, i);
      }
    }
    FirstFence(u, s, q);
    if tagged {
      assert TagAt(u, 3) by { assert u[..10] == open; }
    } else {
      assert !TagAt(u, 3);
    }
    assert MatchAt(u, 0) == Some((s, q));
    assert u[s..q] == "\n" + b + "\n";
    assert u == (open + b + close) + rest;
    FindAllShift(open + b + close, rest, 0);
  }

  lemma {:induction false} FirstFence(t: string, i: nat, q: nat)
    requires i <= q && FenceAt(t, q)
    requires forall j :: i <= j < q ==> !FenceAt(t, j)
    ensures NextFence(t, i) == Some(q)
    decreases q - i
  {
    if i < q {
      FirstFence(t, i + 1, q);
    }
  }

  /** Extracting from rendered markdown returns exactly the code bodies, in order. */
  lemma {:induction false} ExtractRendered(doc: seq<Segment>)
    requires Renderable(doc)
    ensures ExtractCodeBlocks(Render(doc)) == Bodies(doc)
  {
    if doc != [] {
      assert Renderable(doc[1..]) by {
        forall k | 0 <= k < |doc| - 1 ensures doc[1..][k] == doc[k + 1] { }
      }
      ExtractRendered(doc[1..]);
      match doc[0]
      case Prose(x) =>
        assert '`' !in x by { assert doc[0] == Prose(x); }
        SkipProse(x, Render(doc[1..]), 0);
      case Code(tagged, b) =>
        assert NoFence(b) && IsStripped(b) by { assert doc[0] == Code(tagged, b); }
        RenderedBlock(tagged, b, Render(doc[1..]));
        assert Opening(tagged) + b + "\n```" + Render(doc[1..]) == Render(doc);
        StripPadded("\n", b, "\n");
    }
  }

  // ---------------------------------------------------------------------
  // validate_python_env
  // ---------------------------------------------------------------------

  /** The dictionary `validate_python_env` returns: `valid` False with an
      `error`, or `valid` True with a `message`. */
  datatype EnvVerdict = Invalid(error: string) | Valid(message: string)

  const ConflictError := "Potential conflict: TensorFlow and PyTorch in same environment."
  const DataStackMessage := "Standard data stack detected."
  const CompatibleMessage := "Dependencies appear compatible."

  /** `validate_python_env`: two substring rules over the lower-cased,
      space-joined dependency list; the conflict rule is checked first. */
  function ValidatePythonEnv(deps: seq<string>): (r: EnvVerdict)
    ensures r.Invalid? ==> r.error == ConflictError
    ensures r.Valid? ==> r.message == DataStackMessage || r.message == CompatibleMessage
  {
    var joined := Lower(Join(deps, " "));
    if Contains(joined, "tensorflow") && Contains(joined, "pytorch") then Invalid(ConflictError)
    else if Contains(joined, "numpy") && Contains(joined, "pandas") then Valid(DataStackMessage)
    else Valid(CompatibleMessage)
  }

  /** Some dependency entry mentions `word`, ignoring ASCII case. */
  predicate Mentions(deps: seq<string>, word: string) {
    exists k :: 0 <= k < |deps| && Contains(Lower(deps[k]), word)
  }

  /** A space-free word occurs in `x + " " + rest` exactly when it occurs in one of the two. */
  lemma ContainsAroundSpace(x: string, rest: string, w: string)
    requires |w| > 0 && ' ' !in w
    ensures Contains(x + " " + rest, w) <==> Contains(x, w) || Contains(rest, w)
  {
    var t := x + " " + rest;
    if Contains(t, w) {
      var i: nat :| i <= |t| && OccursAt(t, w, i);
      assert t[|x|] == ' ';
      assert forall k :: i <= k < i + |w| ==> t[k] == w[k - i] && t[k] != ' ';
      if i + |w| <= |x| {
        assert t[i..i + |w|] == x[i..i + |w|];
        assert OccursAt(x, w, i);
      } else if i > |x| {
        var i' := i - |x| - 1;
        assert t[i..i + |w|] == rest[i'..i' + |w|];
        assert OccursAt(rest, w, i');
      }
    }
    if Contains(x, w) {
      ContainsExtend([], x, " " + rest, w);
      assert [] + x + (" " + rest) == t;
    }
    if Contains(rest, w) {
      ContainsExtend(x + " ", rest, [], w);
      assert x + " " + rest + [] == t;
    }
  }

  /** A space-free word occurs in a space-joined list exactly when it occurs in one entry. */
  lemma {:induction false} ContainsJoin(xs: seq<string>, w: string)
    requires |w| > 0 && ' ' !in w
    ensures Contains(Join(xs, " "), w) <==> exists k :: 0 <= k < |xs| && Contains(xs[k], w)
  {
    if |xs| > 1 {
      ContainsJoin(xs[1..], w);
      ContainsAroundSpace(xs[0], Join(xs[1..], " "), w);
      assert forall k :: 1 <= k < |xs| ==> xs[1..][k - 1] == xs[k];
      if exists k :: 1 <= k < |xs| && Contains(xs[k], w) {
        var k :| 1 <= k < |xs| && Contains(xs[k], w);
        assert Contains(xs[1..][k - 1], w);
      }
    } else if |xs| == 0 {
      assert !OccursAt(Join(xs, " "), w, 0);
    }
  }

  lemma MentionsJoined(deps: seq<string>, w: string)
    requires |w| > 0 && ' ' !in w
    ensures Contains(Lower(Join(deps, " ")), w) <==> Mentions(deps, w)
  {
    LowerJoin(deps, " ");
    ContainsJoin(LowerAll(deps), w);
  }

  /** The verdict is "invalid" exactly when some entry mentions TensorFlow and
      some entry mentions PyTorch, in any letter case. */
  lemma InvalidIffConflict(deps: seq<string>)
    ensures ValidatePythonEnv(deps).Invalid?
            <==> Mentions(deps, "tensorflow") && Mentions(deps, "pytorch")
  {
    MentionsJoined(deps, "tensorflow");
    MentionsJoined(deps, "pytorch");
  }

  /** The conflict rule takes precedence over the data-stack rule. */
  lemma ConflictBeatsDataStack(deps: seq<string>)
    requires Mentions(deps, "tensorflow") && Mentions(deps, "pytorch")
    requires Mentions(deps, "numpy") && Mentions(deps, "pandas")
    ensures ValidatePythonEnv(deps) == Invalid(ConflictError)
  {
    InvalidIffConflict(deps);
  }

  /** Without a conflict, numpy together with pandas is recognised as the data stack. */
  lemma DataStackDetected(deps: seq<string>)
    requires !(Mentions(deps, "tensorflow") && Mentions(deps, "pytorch"))
    ensures ValidatePythonEnv(deps) == Valid(DataStackMessage)
            <==> Mentions(deps, "numpy") && Mentions(deps, "pandas")
  {
    InvalidIffConflict(deps);
    MentionsJoined(deps, "numpy");
    MentionsJoined(deps, "pandas");
  }

  /** An empty dependency list is compatible. */
  lemma EmptyDependenciesCompatible()
    ensures ValidatePythonEnv([]) == Valid(CompatibleMessage)
  {
    InvalidIffConflict([]);
    DataStackDetected([]);
  }

  /** Matching ignores letter case: lower-casing every entry changes nothing. */
  lemma CaseInsensitive(deps: seq<string>)
    ensures ValidatePythonEnv(LowerAll(deps)) == ValidatePythonEnv(deps)
  {
    LowerJoin(deps, " ");
    LowerJoin(LowerAll(deps), " ");
    LowerIdempotent(Join(deps, " "));
    assert Lower(Join(LowerAll(deps), " ")) == Lower(Join(deps, " ")) by {
      assert Join(LowerAll(deps), " ") == Lower(Join(deps, " "));
    }
  }
}
