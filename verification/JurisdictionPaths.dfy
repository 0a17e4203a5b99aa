/** Jurisdiction paths: slash-separated components, their parser and printer, parents and ancestors. */
module JurisdictionPaths {
  import opened Encoding

  datatype Path = Path(components: seq<string>)

  /** `split('/')`: one part more than there are slashes. */
  function Split(s: string): (r: seq<string>)
    ensures |r| >= 1
  {
    if s == "" then [""]
    else
      var rest := Split(s[1..]);
      if s[0] == '/' then [""] + rest else [[s[0]] + rest[0]] + rest[1..]
  }

  function NonEmpty(parts: seq<string>): seq<string> {
    if parts == [] then []
    else if parts[0] == "" then NonEmpty(parts[1..])
    else [parts[0]] + NonEmpty(parts[1..])
  }

  function Parse(s: string): Result<Path> {
    var components := NonEmpty(Split(s));
    if components == [] then Err(InvalidInput("Empty jurisdiction path")) else Ok(Path(components))
  }

  /** `join("/")`. */
  function Join(parts: seq<string>): string {
    if parts == [] then ""
    else if |parts| == 1 then parts[0]
    else parts[0] + ("/" + Join(parts[1..]))
  }

  function ToString(p: Path): string { Join(p.components) }

  function Parent(p: Path): Option<Path> {
    if |p.components| <= 1 then None else Some(Path(p.components[..|p.components| - 1]))
  }

  /** `n` parent steps. */
  function Parents(p: Path, n: nat): Option<Path>
    decreases n
  {
    if n == 0 then Some(p)
    else match Parent(p)
      case None => None
      case Some(q) => Parents(q, n - 1)
  }

  predicate IsAncestorOf(a: Path, b: Path) {
    |a.components| < |b.components| && forall i | 0 <= i < |a.components| :: a.components[i] == b.components[i]
  }

  // ---------------------------------------------------------------- parser and printer

  /** A component that survives printing and parsing. */
  predicate Plain(c: string) { c != "" && '/' !in c }

  predicate WellFormed(p: Path) { p.components != [] && forall c | c in p.components :: Plain(c) }

  lemma {:induction false} SplitPlain(a: string)
    requires '/' !in a
    ensures Split(a) == [a]
  {
    if a != "" {
      SplitPlain(a[1..]);
      assert [a[0]] + a[1..] == a;
    }
  }

  lemma {:induction false} SplitAtSlash(a: string, b: string)
    requires '/' !in a
    ensures Split(a + ("/" + b)) == [a] + Split(b)
  {
    if a == "" {
      assert a + ("/" + b) == "/" + b && ("/" + b)[1..] == b;
    } else {
      SplitAtSlash(a[1..], b);
      assert (a + ("/" + b))[1..] == a[1..] + ("/" + b);
      assert [a[0]] + a[1..] == a;
      assert ([a[1..]] + Split(b))[1..] == Split(b);
    }
  }

  lemma {:induction false} SplitJoin(parts: seq<string>)
    requires parts != [] && forall c | c in parts :: '/' !in c
    ensures Split(Join(parts)) == parts
  {
    if |parts| == 1 {
      SplitPlain(parts[0]);
    } else {
      SplitAtSlash(parts[0], Join(parts[1..]));
      SplitJoin(parts[1..]);
    }
  }

  lemma {:induction false} NonEmptyKeeps(parts: seq<string>)
    requires "" !in parts
    ensures NonEmpty(parts) == parts
  {
    if parts != [] {
      NonEmptyKeeps(parts[1..]);
    }
  }

  lemma {:induction false} NonEmptyMembers(parts: seq<string>, c: string)
    requires c in NonEmpty(parts)
    ensures c != "" && c in parts
  {
    if parts[0] != "" && c != parts[0] {
      assert c in NonEmpty(parts[1..]);
      NonEmptyMembers(parts[1..], c);
    } else if parts[0] == "" {
      NonEmptyMembers(parts[1..], c);
    }
  }

  lemma {:induction false} SplitPartsPlain(s: string, c: string)
    requires c in Split(s)
    ensures '/' !in c
  {
    if s != "" {
      var rest := Split(s[1..]);
      SplitPartsPlain(s[1..], rest[0]);
      if c in rest {
        SplitPartsPlain(s[1..], c);
      }
    }
  }

  /** Parsing yields only well-formed paths. */
  lemma {:induction false} ParseYieldsWellFormed(s: string)
    requires Parse(s).Ok?
    ensures WellFormed(Parse(s).value)
  {
    forall c | c in Parse(s).value.components
      ensures Plain(c)
    {
      NonEmptyMembers(Split(s), c);
      SplitPartsPlain(s, c);
    }
  }

  /** Printing and parsing give a path back exactly when it has a component and all its components are
      non-empty and slash-free. */
  lemma {:induction false} ParsePrintExact(p: Path)
    ensures Parse(ToString(p)) == Ok(p) <==> WellFormed(p)
  {
    if WellFormed(p) {
      SplitJoin(p.components);
      NonEmptyKeeps(p.components);
    }
    if Parse(ToString(p)) == Ok(p) {
      ParseYieldsWellFormed(ToString(p));
    }
  }

  /** Printing what was parsed normalizes: one more round changes nothing. */
  lemma {:induction false} ParseNormalizes(s: string)
    requires Parse(s).Ok?
    ensures Parse(ToString(Parse(s).value)) == Parse(s)
  {
    ParseYieldsWellFormed(s);
    ParsePrintExact(Parse(s).value);
  }

  // ---------------------------------------------------------------- the text itself

  /** Joining the parts of a string gives the string back. */
  lemma {:induction false} JoinSplit(s: string)
    ensures Join(Split(s)) == s
  {
    if s != "" {
      var rest := Split(s[1..]);
      JoinSplit(s[1..]);
      assert s == [s[0]] + s[1..];
      if s[0] == '/' {
        assert ([""] + rest)[1..] == rest;
        assert Join([""] + rest) == "" + ("/" + Join(rest));
        assert "/" == [s[0]];
      } else {
        JoinLonger(rest, s[0]);
      }
    }
  }

  lemma {:induction false} JoinLonger(parts: seq<string>, c: char)
    requires parts != []
    ensures Join([[c] + parts[0]] + parts[1..]) == [c] + Join(parts)
  {
    var longer := [[c] + parts[0]] + parts[1..];
    if |parts| > 1 {
      assert longer[1..] == parts[1..];
      assert ([c] + parts[0]) + ("/" + Join(parts[1..])) == [c] + (parts[0] + ("/" + Join(parts[1..])));
    }
  }

  /** What is printed is the components with a slash between each two and nowhere else: splitting it at slashes gives
      the components back, empty ones included. */
  lemma {:induction false} PrintExact(p: Path)
    requires p.components != [] && forall c | c in p.components :: '/' !in c
    ensures Split(ToString(p)) == p.components
  {
    SplitJoin(p.components);
  }

  /** A string is the print of what it parses to exactly if no part of it is empty. */
  lemma {:induction false} PrintOfParse(s: string)
    requires Parse(s).Ok?
    ensures ToString(Parse(s).value) == s <==> "" !in Split(s)
  {
    var p := Parse(s).value;
    if "" !in Split(s) {
      NonEmptyKeeps(Split(s));
      JoinSplit(s);
    } else {
      ParseYieldsWellFormed(s);
      PrintExact(p);
    }
  }

  lemma {:induction false} NonEmptyConcat(a: seq<string>, b: seq<string>)
    ensures NonEmpty(a + b) == NonEmpty(a) + NonEmpty(b)
  {
    if a == [] {
      assert a + b == b;
    } else {
      NonEmptyConcat(a[1..], b);
      NonEmptyFirst(a[0], a[1..]);
      NonEmptyFirst(a[0], a[1..] + b);
      assert a == [a[0]] + a[1..] && a + b == [a[0]] + (a[1..] + b);
    }
  }

  lemma {:induction false} NonEmptyFirst(first: string, rest: seq<string>)
    ensures NonEmpty([first] + rest) == (if first == "" then [] else [first]) + NonEmpty(rest)
  {
    assert ([first] + rest)[1..] == rest;
  }

  /** Empty parts do not matter: a doubled, leading or trailing slash changes nothing. */
  lemma {:induction false} EmptyPartsIgnored(a: seq<string>, b: seq<string>)
    requires a + b != [] && forall c | c in a + b :: '/' !in c
    ensures Parse(Join(a + [""] + b)) == Parse(Join(a + b))
  {
    var empty := [""];
    forall c | c in a + empty + b
      ensures '/' !in c
    {
      assert c == "" || c in a + b;
    }
    SplitJoin(a + empty + b);
    SplitJoin(a + b);
    NonEmptyConcat(a + empty, b);
    NonEmptyConcat(a, empty);
    NonEmptyConcat(a, b);
    assert empty[1..] == [];
    assert NonEmpty(empty) == [] && NonEmpty(a) + [] == NonEmpty(a);
  }

  ghost predicate AllEmpty(parts: seq<string>) { forall i | 0 <= i < |parts| :: |parts[i]| == 0 }

  ghost predicate AllSlashes(s: string) { forall i | 0 <= i < |s| :: s[i] == '/' }

  lemma {:induction false} AllEmptyFirst(first: string, rest: seq<string>)
    ensures AllEmpty([first] + rest) <==> |first| == 0 && AllEmpty(rest)
  {
    var all := [first] + rest;
    assert all[0] == first && forall i | 0 <= i < |rest| :: all[i + 1] == rest[i];
    if |first| == 0 && AllEmpty(rest) {
      assert forall i | 1 <= i < |all| :: all[i] == rest[i - 1];
    }
  }

  lemma {:induction false} AllSlashesFirst(c: char, s: string)
    ensures AllSlashes([c] + s) <==> c == '/' && AllSlashes(s)
  {
    var all := [c] + s;
    assert all[0] == c && forall i | 0 <= i < |s| :: all[i + 1] == s[i];
  }

  /** Only strings of slashes, the empty one included, are refused. */
  lemma {:induction false} ParseRefuses(s: string)
    ensures Parse(s).Err? <==> AllSlashes(s)
    ensures Parse(s).Err? ==> Parse(s).error == InvalidInput("Empty jurisdiction path")
  {
    SlashesSplitEmpty(s);
    NoneLeft(Split(s));
  }

  lemma {:induction false} NoneLeft(parts: seq<string>)
    ensures NonEmpty(parts) == [] <==> AllEmpty(parts)
  {
    if parts != [] {
      NoneLeft(parts[1..]);
      assert parts == [parts[0]] + parts[1..];
      AllEmptyFirst(parts[0], parts[1..]);
    }
  }

  lemma {:induction false} SlashesSplitEmpty(s: string)
    ensures AllEmpty(Split(s)) <==> AllSlashes(s)
  {
    if s != "" {
      var rest := Split(s[1..]);
      SlashesSplitEmpty(s[1..]);
      assert s == [s[0]] + s[1..];
      AllSlashesFirst(s[0], s[1..]);
      if s[0] == '/' {
        AllEmptyFirst("", rest);
      } else {
        AllEmptyFirst([s[0]] + rest[0], rest[1..]);
      }
    }
  }

  // ---------------------------------------------------------------- ancestors

  lemma {:induction false} ParentsExact(p: Path, n: nat)
    requires n >= 1
    ensures Parents(p, n) == if n < |p.components| then Some(Path(p.components[..|p.components| - n])) else None
    decreases n
  {
    if n > 1 && |p.components| > 1 {
      var q := Parent(p).value;
      ParentsExact(q, n - 1);
      assert n < |p.components| ==> q.components[..|q.components| - (n - 1)] == p.components[..|p.components| - n];
    }
  }

  /** A path with a component is an ancestor exactly when repeated parent steps reach it; the empty path,
      which no parent step reaches, counts as an ancestor of every other path. */
  lemma {:induction false} AncestorIffParents(a: Path, b: Path)
    ensures a.components != [] ==> (IsAncestorOf(a, b) <==> exists n :: n >= 1 && Parents(b, n) == Some(a))
    ensures a.components == [] ==>
              (IsAncestorOf(a, b) <==> b.components != []) && forall n | n >= 1 :: Parents(b, n) != Some(a)
  {
    forall n | n >= 1
      ensures Parents(b, n) == if n < |b.components| then Some(Path(b.components[..|b.components| - n])) else None
    {
      ParentsExact(b, n);
    }
    if a.components != [] && IsAncestorOf(a, b) {
      var n := |b.components| - |a.components|;
      assert a.components == b.components[..|b.components| - n];
      assert Parents(b, n) == Some(a);
    }
  }
}
