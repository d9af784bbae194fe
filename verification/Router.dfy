// Routing: canonical prefixes, the longest match by segments, and the path sent downstream.
module Router {
  import opened Prelude

  // ----- Strings and segments ----------------------------------------------------------------

  // path.split("/")
  function Split(s: string): (parts: seq<string>)
    ensures |parts| > 0
  {
    if s == "" then [""]
    else
      var rest := Split(s[1..]);
      if s[0] == '/' then [""] + rest else [[s[0]] + rest[0]] + rest[1..]
  }

  function Join(parts: seq<string>): string {
    if parts == [] then "" else if |parts| == 1 then parts[0] else parts[0] + "/" + Join(parts[1..])
  }

  // lstrip("/"), rstrip("/") and strip("/")
  function LStrip(s: string): (r: string)
    ensures |r| <= |s| && s[|s| - |r|..] == r
    ensures forall k :: 0 <= k < |s| - |r| ==> s[k] == '/'
    ensures r != "" ==> r[0] != '/'
  {
    if s != "" && s[0] == '/' then LStrip(s[1..]) else s
  }

  function RStrip(s: string): (r: string)
    ensures r <= s
    ensures forall k :: |r| <= k < |s| ==> s[k] == '/'
    ensures r != "" ==> r[|r| - 1] != '/'
  {
    if s != "" && s[|s| - 1] == '/' then RStrip(s[..|s| - 1]) else s
  }

  function Strip(s: string): string {
    RStrip(LStrip(s))
  }

  // Every run of slashes becomes one slash.
  function Collapse(s: string): (r: string)
    ensures (s == "" <==> r == "") && (s != "" ==> r[0] == s[0] && r[|r| - 1] == s[|s| - 1])
  {
    if |s| < 2 then s
    else if s[0] == '/' && s[1] == '/' then Collapse(s[1..])
    else [s[0]] + Collapse(s[1..])
  }

  // ".." in s
  predicate HasDots(s: string) {
    |s| >= 2 && ((s[0] == '.' && s[1] == '.') || HasDots(s[1..]))
  }

  lemma {:induction false} HasDotsIff(s: string)
    ensures HasDots(s) <==> exists i :: 0 <= i < |s| - 1 && s[i] == '.' && s[i + 1] == '.'
  {
    if |s| < 2 {
    } else {
      HasDotsIff(s[1..]);
      if i :| 0 <= i < |s| - 1 && s[i] == '.' && s[i + 1] == '.' {
        assert i > 0 ==> s[1..][i - 1] == '.' && s[1..][i - 1 + 1] == '.';
      }
      if i :| 0 <= i < |s[1..]| - 1 && s[1..][i] == '.' && s[1..][i + 1] == '.' {
        assert s[i + 1] == '.' && s[i + 1 + 1] == '.';
      }
      assert s[0] == '.' && s[0 + 1] == '.' ==> HasDots(s);
    }
  }

  datatype Normalised = Prefix(value: string) | EmptyPrefix | DotsInPrefix

  function NormalisePrefix(prefix: string): Normalised {
    var stripped := Strip(prefix);
    if stripped == "" then EmptyPrefix
    else if HasDots(stripped) then DotsInPrefix
    else Prefix(Collapse(stripped))
  }

  lemma {:induction false} JoinSplit(s: string)
    ensures Join(Split(s)) == s
  {
    if s == "" {
    } else {
      JoinSplit(s[1..]);
      var rest := Split(s[1..]);
      if s[0] != '/' {
        assert [[s[0]] + rest[0]] + rest[1..] == Split(s);
        assert Join(Split(s)) == [s[0]] + Join(rest) by {
          assert Split(s)[1..] == rest[1..];
        }
      } else {
        assert Split(s)[1..] == rest;
      }
    }
  }

  lemma SplitIsInjective(a: string, b: string)
    requires Split(a) == Split(b)
    ensures a == b
  {
    JoinSplit(a);
    JoinSplit(b);
  }

  // ----- The canonical form of a prefix --------------------------------------------------------

  predicate SingleSlashes(s: string) {
    forall i :: 0 <= i < |s| - 1 ==> !(s[i] == '/' && s[i + 1] == '/')
  }

  predicate Trimmed(s: string) {
    s != "" && s[0] != '/' && s[|s| - 1] != '/'
  }

  predicate Canonical(s: string) {
    Trimmed(s) && SingleSlashes(s) && !HasDots(s)
  }

  // The segments of a path that are not empty.
  function Solid(parts: seq<string>): seq<string> {
    if parts == [] then []
    else if parts[0] == "" then Solid(parts[1..])
    else [parts[0]] + Solid(parts[1..])
  }

  lemma {:induction false} CollapseLeavesSingles(s: string)
    ensures SingleSlashes(Collapse(s))
  {
    if |s| < 2 {
    } else {
      CollapseLeavesSingles(s[1..]);
    }
  }

  lemma SinglesByFirst(s: string)
    requires |s| >= 2
    ensures SingleSlashes(s) <==> !(s[0] == '/' && s[1] == '/') && SingleSlashes(s[1..])
  {
    var t := s[1..];
    if SingleSlashes(s) {
      assert !(s[0] == '/' && s[0 + 1] == '/');
      forall i | 0 <= i < |t| - 1 ensures !(t[i] == '/' && t[i + 1] == '/') {
        assert t[i] == s[i + 1] && t[i + 1] == s[i + 1 + 1];
      }
    } else {
      var i :| 0 <= i < |s| - 1 && s[i] == '/' && s[i + 1] == '/';
      if i > 0 {
        assert t[i - 1] == '/' && t[i - 1 + 1] == '/';
      }
    }
  }

  lemma {:induction false} CollapseOfSingles(s: string)
    ensures Collapse(s) == s <==> SingleSlashes(s)
  {
    if |s| < 2 {
    } else {
      CollapseOfSingles(s[1..]);
      CollapseShortens(s[1..]);
      SinglesByFirst(s);
      hide SingleSlashes;
      if !(s[0] == '/' && s[1] == '/') {
        assert Collapse(s)[1..] == Collapse(s[1..]);
        assert s == [s[0]] + s[1..];
      }
    }
  }

  lemma {:induction false} CollapseShortens(s: string)
    ensures |Collapse(s)| <= |s|
  {
    if |s| < 2 {
    } else {
      CollapseShortens(s[1..]);
    }
  }

  lemma {:induction false} CollapseKeepsDots(s: string)
    ensures HasDots(Collapse(s)) <==> HasDots(s)
  {
    if |s| < 2 {
    } else {
      CollapseKeepsDots(s[1..]);
      if !(s[0] == '/' && s[1] == '/') {
        assert Collapse(s)[1..] == Collapse(s[1..]);
      }
    }
  }

  lemma {:induction false} TrailingSlashKeepsDots(s: string)
    ensures HasDots(s + "/") <==> HasDots(s)
  {
    if s == "" {
    } else {
      TrailingSlashKeepsDots(s[1..]);
      assert (s + "/")[1..] == s[1..] + "/";
    }
  }

  lemma {:induction false} LStripKeeps(s: string)
    ensures Solid(Split(LStrip(s))) == Solid(Split(s)) && (HasDots(LStrip(s)) <==> HasDots(s))
  {
    if s == "" || s[0] != '/' {
    } else {
      LStripKeeps(s[1..]);
      assert Split(s)[1..] == Split(s[1..]);
    }
  }

  lemma {:induction false} TrailingSlashSplits(s: string)
    ensures Split(s + "/") == Split(s) + [""]
  {
    if s != "" {
      TrailingSlashSplits(s[1..]);
      assert (s + "/")[1..] == s[1..] + "/";
    } else {
      assert s + "/" == "/" && "/"[1..] == "";
    }
  }

  lemma {:induction false} SolidDropsLastEmpty(parts: seq<string>)
    ensures Solid(parts + [""]) == Solid(parts)
  {
    if parts != [] {
      SolidDropsLastEmpty(parts[1..]);
      assert (parts + [""])[1..] == parts[1..] + [""];
    } else {
      assert (parts + [""])[1..] == [];
    }
  }

  lemma {:induction false} RStripKeeps(s: string)
    ensures Solid(Split(RStrip(s))) == Solid(Split(s)) && (HasDots(RStrip(s)) <==> HasDots(s))
    decreases |s|
  {
    if s == "" || s[|s| - 1] != '/' {
    } else {
      var t := s[..|s| - 1];
      assert s == t + "/";
      RStripKeeps(t);
      TrailingSlashSplits(t);
      SolidDropsLastEmpty(Split(t));
      TrailingSlashKeepsDots(t);
    }
  }

  lemma {:induction false} CollapseKeepsSegments(s: string)
    ensures Split(Collapse(s))[0] == Split(s)[0]
    ensures Solid(Split(Collapse(s))[1..]) == Solid(Split(s)[1..])
  {
    if |s| < 2 {
    } else {
      CollapseKeepsSegments(s[1..]);
      if s[0] == '/' && s[1] == '/' {
        assert Split(s)[1..] == Split(s[1..]);
      } else {
        assert Collapse(s)[1..] == Collapse(s[1..]);
        if s[0] == '/' {
          assert Split(s)[1..] == Split(s[1..]);
          assert Split(Collapse(s))[1..] == Split(Collapse(s[1..]));
        }
      }
    }
  }

  lemma {:induction false} CanonicalSegmentsAreSolid(s: string)
    requires s != "" && s[|s| - 1] != '/' && SingleSlashes(s)
    ensures Solid(Split(s)[1..]) == Split(s)[1..]
    ensures s[0] != '/' ==> Split(s)[0] != ""
  {
    if |s| > 1 {
      var t := s[1..];
      SinglesByFirst(s);
      hide SingleSlashes;
      CanonicalSegmentsAreSolid(t);
      if s[0] == '/' {
        assert Split(s)[1..] == Split(t);
      } else {
        assert Split(s)[1..] == Split(t)[1..];
      }
    } else {
      assert s[1..] == "";
    }
  }

  lemma StripTrims(s: string)
    ensures Strip(s) == "" || Trimmed(Strip(s))
    ensures Trimmed(s) ==> Strip(s) == s
  {
    var left := LStrip(s);
    assert Strip(s) != "" ==> Strip(s)[0] == left[0];
    assert Trimmed(s) ==> left == s && RStrip(left) == left;
    hide LStrip, RStrip;
  }

  // Exactly the canonical prefixes are left as they are, and every accepted prefix becomes one.
  lemma CanonicalIsFixed(prefix: string)
    ensures NormalisePrefix(prefix) == Prefix(prefix) <==> Canonical(prefix)
    ensures NormalisePrefix(prefix).Prefix? ==> Canonical(NormalisePrefix(prefix).value)
  {
    hide LStrip, RStrip, Strip, HasDots, Collapse, SingleSlashes;
    var stripped := Strip(prefix);
    StripTrims(prefix);
    CollapseLeavesSingles(stripped);
    CollapseKeepsDots(stripped);
    CollapseOfSingles(prefix);
  }

  // A prefix is refused exactly when it has no segment but empty ones, or two dots in a row;
  // otherwise the canonical form has its segments that are not empty, in order.
  lemma {:induction false} NormaliseKeepsSegments(prefix: string)
    ensures
      match NormalisePrefix(prefix)
      case EmptyPrefix => Solid(Split(prefix)) == []
      case DotsInPrefix => Solid(Split(prefix)) != [] && HasDots(prefix)
      case Prefix(p) => Solid(Split(prefix)) != [] && !HasDots(prefix) && Split(p) == Solid(Split(prefix))
  {
    var stripped := Strip(prefix);
    StripTrims(prefix);
    LStripKeeps(prefix);
    RStripKeeps(LStrip(prefix));
    hide LStrip, RStrip, SingleSlashes, HasDots, Collapse;
    if stripped == "" {
      assert Split("") == [""];
    } else {
      assert Split(stripped)[0] != "";
      var p := Collapse(stripped);
      CollapseLeavesSingles(stripped);
      CollapseKeepsSegments(stripped);
      CanonicalSegmentsAreSolid(p);
      hide Split, Strip;
      assert Solid(Split(p)) == [Split(p)[0]] + Split(p)[1..];
    }
  }

  // ----- The longest match ---------------------------------------------------------------------

  datatype Route = Route(prefix: string, target: string, fallback: Option<string>, stripPrefix: bool)

  // The route table: a dictionary, and the order in which it yields its keys.
  datatype Table = Table(order: seq<string>, routes: map<string, Route>) {
    ghost predicate Valid() {
      forall p :: p in order <==> p in routes
    }
  }

  predicate Covers(prefix: string, path: string) {
    Split(prefix) <= Split(Strip(path))
  }

  predicate LexLe(a: string, b: string) {
    a == "" || (b != "" && (a[0] < b[0] || (a[0] == b[0] && LexLe(a[1..], b[1..]))))
  }

  // The sort key: most segments first, then alphabetical.
  predicate Precedes(a: string, b: string) {
    |Split(a)| > |Split(b)| || (|Split(a)| == |Split(b)| && LexLe(a, b))
  }

  function Insert(p: string, sorted: seq<string>): seq<string> {
    if sorted == [] || Precedes(p, sorted[0]) then [p] + sorted
    else [sorted[0]] + Insert(p, sorted[1..])
  }

  function Sorted(prefixes: seq<string>): seq<string> {
    if prefixes == [] then [] else Insert(prefixes[0], Sorted(prefixes[1..]))
  }

  ghost predicate InOrder(prefixes: seq<string>) {
    forall i, j :: 0 <= i <= j < |prefixes| ==> Precedes(prefixes[i], prefixes[j])
  }

  lemma {:induction false} LexLeIsAnOrder(a: string, b: string, c: string)
    ensures LexLe(a, a) && (LexLe(a, b) || LexLe(b, a))
    ensures LexLe(a, b) && LexLe(b, c) ==> LexLe(a, c)
  {
    if a == "" {
    } else {
      LexLeIsAnOrder(a[1..], if b != "" then b[1..] else "", if c != "" then c[1..] else "");
    }
  }

  lemma {:induction false} InsertKeepsOrder(p: string, sorted: seq<string>)
    requires InOrder(sorted)
    ensures InOrder(Insert(p, sorted))
    ensures forall q :: q in Insert(p, sorted) <==> q == p || q in sorted
  {
    hide LexLe, Split;
    LexLeIsAnOrder(p, p, p);
    var out := Insert(p, sorted);
    if sorted == [] {
    } else {
      LexLeIsAnOrder(p, sorted[0], p);
      if Precedes(p, sorted[0]) {
        forall j | 0 <= j < |sorted| ensures Precedes(p, sorted[j]) {
          assert Precedes(sorted[0], sorted[j]);
          LexLeIsAnOrder(p, sorted[0], sorted[j]);
        }
      } else {
        InsertKeepsOrder(p, sorted[1..]);
        assert Precedes(sorted[0], p);
        assert Precedes(sorted[0], sorted[0]);
        forall j | 0 < j < |out| ensures Precedes(sorted[0], out[j]) {
          assert out[j] in Insert(p, sorted[1..]);
          if out[j] != p {
            var i :| 0 <= i < |sorted[1..]| && sorted[1..][i] == out[j];
            assert sorted[i + 1] == out[j];
          }
        }
      }
    }
  }

  lemma {:induction false} SortedIsInOrder(prefixes: seq<string>)
    ensures InOrder(Sorted(prefixes)) && forall p :: p in Sorted(prefixes) <==> p in prefixes
  {
    if prefixes == [] {
    } else {
      SortedIsInOrder(prefixes[1..]);
      InsertKeepsOrder(prefixes[0], Sorted(prefixes[1..]));
    }
  }

  // Of all the prefixes that cover the path, p alone has the most segments.
  ghost predicate Longest(routes: map<string, Route>, path: string, p: string) {
    && p in routes && Covers(p, path)
    && forall q :: q in routes && Covers(q, path) && q != p ==> |Split(q)| < |Split(p)|
  }

  ghost predicate Answers(routes: map<string, Route>, path: string, answer: Option<Route>) {
    match answer
    case None => forall p :: p in routes ==> !Covers(p, path)
    case Some(route) => exists p :: Longest(routes, path, p) && routes[p] == route
  }

  // Prefixes of one path with as many segments are the same.
  lemma AsLongIsSame(p: string, q: string, path: string)
    requires Covers(p, path) && Covers(q, path) && |Split(p)| == |Split(q)|
    ensures p == q
  {
    SplitIsInjective(p, q);
  }

  // The answer depends on the routes alone, not on the order of the table.
  lemma AnswerIsUnique(routes: map<string, Route>, path: string, a: Option<Route>, b: Option<Route>)
    requires Answers(routes, path, a) && Answers(routes, path, b)
    ensures a == b
  {
    hide Covers;
  }

  // The first candidate that covers the path is the longest.
  lemma FirstIsLongest(table: Table, candidates: seq<string>, i: nat, path: string)
    requires table.Valid() && InOrder(candidates) && forall p :: p in candidates <==> p in table.order
    requires i < |candidates| && Covers(candidates[i], path)
    requires forall j :: 0 <= j < i ==> !Covers(candidates[j], path)
    ensures candidates[i] in table.routes && Answers(table.routes, path, Some(table.routes[candidates[i]]))
  {
    hide Covers, Split, LexLe;
    var prefix := candidates[i];
    forall q | q in table.routes && Covers(q, path) && q != prefix ensures |Split(q)| < |Split(prefix)| {
      var j :| 0 <= j < |candidates| && candidates[j] == q;
      assert Precedes(candidates[i], candidates[j]);
      if |Split(q)| == |Split(prefix)| {
        AsLongIsSame(q, prefix, path);
      }
    }
    assert Longest(table.routes, path, prefix);
  }

  lemma NoRoutesAnswer(routes: map<string, Route>, path: string)
    requires routes == map[]
    ensures Answers(routes, path, None)
  {
  }

  lemma NoneAnswers(table: Table, candidates: seq<string>, path: string)
    requires table.Valid() && forall p :: p in candidates <==> p in table.order
    requires forall j :: 0 <= j < |candidates| ==> !Covers(candidates[j], path)
    ensures Answers(table.routes, path, None)
  {
    hide Covers;
    forall p | p in table.routes ensures !Covers(p, path) {
      assert p in candidates;
    }
  }

  lemma CoversIff(prefix: string, path: string)
    ensures Covers(prefix, path) <==> Split(prefix) <= Split(Strip(path))
  {
  }

  method MatchRoute(path: string, table: Table) returns (answer: Option<Route>)
    requires table.Valid()
    ensures Answers(table.routes, path, answer)
  {
    hide *;
    if table.routes == map[] {
      NoRoutesAnswer(table.routes, path);
      return None;
    }
    var segments, candidates := Split(Strip(path)), Sorted(table.order);
    SortedIsInOrder(table.order);
    for i := 0 to |candidates|
      invariant forall j :: 0 <= j < i ==> !Covers(candidates[j], path)
    {
      var prefix := candidates[i];
      var prefixSegments := Split(prefix);
      CoversIff(prefix, path);
      if prefixSegments <= segments {
        FirstIsLongest(table, candidates, i, path);
        return Some(table.routes[prefix]);
      }
    }
    NoneAnswers(table, candidates, path);
    return None;
  }

  // ----- The answer as text ----------------------------------------------------------------------

  // Of two prefixes of one path, the one with fewer segments is the shorter text.
  lemma FewerSegmentsAreShorter(p: string, q: string, path: string)
    requires Covers(p, path) && Covers(q, path)
    ensures |Split(p)| < |Split(q)| <==> |p| < |q|
    ensures |Split(p)| == |Split(q)| <==> p == q
  {
    hide Split, Strip;
    var segments := Split(Strip(path));
    SegmentsAsText(p, q);
    SegmentsAsText(q, p);
    if |Split(p)| <= |Split(q)| {
      assert Split(p) <= Split(q);
    } else {
      assert Split(q) <= Split(p);
    }
    if |Split(p)| == |Split(q)| {
      AsLongIsSame(p, q, path);
    }
  }

  // A route answers a path exactly if the path, without the slashes in front, is its prefix or goes
  // on after it with a slash, and no longer prefix of the table does so.
  lemma AnswersAsText(routes: map<string, Route>, path: string, answer: Option<Route>)
    requires forall p :: p in routes ==> Canonical(p) && routes[p].prefix == p
    ensures Answers(routes, path, answer) <==>
      var rest := LStrip(path);
      match answer
      case None => forall q :: q in routes ==> rest != q && !(q + "/" <= rest)
      case Some(route) =>
        var p := route.prefix;
        && p in routes && routes[p] == route && (rest == p || p + "/" <= rest)
        && (forall q :: q in routes && (rest == q || q + "/" <= rest) ==> |q| <= |p|)
  {
    forall q | q in routes
      ensures Covers(q, path) <==> LStrip(path) == q || q + "/" <= LStrip(path)
    {
      assert Canonical(q);
      CoversAsText(q, path);
    }
    if answer.Some? && answer.value.prefix in routes && Covers(answer.value.prefix, path) {
      var p := answer.value.prefix;
      forall q | q in routes && Covers(q, path)
        ensures |q| <= |p| <==> q == p || |Split(q)| < |Split(p)|
      {
        FewerSegmentsAreShorter(q, p, path);
        FewerSegmentsAreShorter(p, q, path);
      }
      hide Covers, Split, Canonical, LStrip;
      assert Longest(routes, path, p) <==> forall q :: q in routes && Covers(q, path) ==> |q| <= |p|;
    }
    hide Covers, Split, Canonical, LStrip;
  }

  // ----- The downstream path -------------------------------------------------------------------

  function BuildDownstreamPath(route: Route, path: string): string {
    if !route.stripPrefix then path
    else
      var prefix := "/" + route.prefix;
      if prefix + "/" <= path then path[|prefix|..]
      else if path == prefix then "/"
      else path
  }

  predicate OneLeadingSlash(path: string) {
    path != "" && path[0] == '/' && (|path| > 1 ==> path[1] != '/')
  }

  lemma PrefixByFirst<T>(a: seq<T>, b: seq<T>)
    requires a != [] && b != []
    ensures a <= b <==> a[0] == b[0] && a[1..] <= b[1..]
  {
    if a[0] == b[0] && a[1..] <= b[1..] {
      assert a == [a[0]] + a[1..] && b == [b[0]] + b[1..];
    }
  }

  lemma {:induction false} SplitByFirst(p: string, s: string)
    requires p != "" && s != "" && p[0] == s[0]
    ensures Split(p) <= Split(s) <==> Split(p[1..]) <= Split(s[1..])
  {
    var ps, ss := Split(p[1..]), Split(s[1..]);
    PrefixByFirst(Split(p), Split(s));
    PrefixByFirst(ps, ss);
    if p[0] == '/' {
      assert Split(p)[1..] == ps && Split(s)[1..] == ss;
    } else {
      assert Split(p)[0][1..] == ps[0] && Split(s)[0][1..] == ss[0];
      assert Split(p)[1..] == ps[1..] && Split(s)[1..] == ss[1..];
    }
  }

  // Comparing segments is comparing text up to a slash.
  lemma {:induction false} SegmentsAsText(p: string, s: string)
    ensures Split(p) <= Split(s) <==> s == p || p + "/" <= s
  {
    if p == "" || s == "" {
      PrefixByFirst(Split(p), Split(s));
      assert p == "" ==> Split(p)[1..] == [] && p + "/" == "/";
    } else if p[0] != s[0] {
      PrefixByFirst(Split(p), Split(s));
      PrefixByFirst(p + "/", s);
      assert p[0] != '/' ==> Split(p)[0][0] == p[0];
      assert s[0] != '/' ==> Split(s)[0][0] == s[0];
    } else {
      SegmentsAsText(p[1..], s[1..]);
      SplitByFirst(p, s);
      hide Split;
      PrefixByFirst(p + "/", s);
      assert (p + "/")[1..] == p[1..] + "/";
      assert s == p <==> s[1..] == p[1..] by {
        assert s == [s[0]] + s[1..] && p == [p[0]] + p[1..];
      }
    }
  }

  lemma TrailingSlashesDoNotMatter(p: string, s: string)
    requires Trimmed(p)
    ensures RStrip(s) == p || p + "/" <= RStrip(s) <==> s == p || p + "/" <= s
  {
    var r := RStrip(s);
    if p + "/" <= s {
      assert s[|p| - 1] == p[|p| - 1] && s[|p|] == '/';
      assert |r| >= |p|;
      assert r[..|p|] == s[..|p|] == p;
      if |r| > |p| {
        assert r[..|p| + 1] == s[..|p| + 1] == p + "/";
      }
    }
    if r == p && s != p {
      assert s[|p|] == '/' && s[..|p| + 1] == p + "/";
    }
  }

  lemma {:induction false} CoversAsText(p: string, path: string)
    requires Trimmed(p)
    ensures Covers(p, path) <==> LStrip(path) == p || p + "/" <= LStrip(path)
  {
    SegmentsAsText(p, Strip(path));
    TrailingSlashesDoNotMatter(p, LStrip(path));
  }

  // What is stripped, put back: the bare prefix leaves a slash, and any other path what follows the
  // prefix, from its slash on.
  predicate Rebuilds(route: Route, path: string) {
    var downstream := BuildDownstreamPath(route, path);
    if path == "/" + route.prefix then downstream == "/"
    else downstream != "" && downstream[0] == '/' && "/" + route.prefix + downstream == path
  }

  // For a path that a prefix covers: a path with one leading slash is the prefix, or goes on
  // after a slash.
  lemma RoundTripOfCovered(route: Route, path: string)
    requires Trimmed(route.prefix) && Covers(route.prefix, path) && route.stripPrefix
    ensures Rebuilds(route, path) <==> OneLeadingSlash(path)
    ensures !OneLeadingSlash(path) ==> BuildDownstreamPath(route, path) == path
  {
    CoversAsText(route.prefix, path);
    if OneLeadingSlash(path) {
      assert path == "/" + LStrip(path) by {
        assert |LStrip(path)| == |path| - 1;
      }
      PrefixComesBack(route, LStrip(path));
    } else {
      hide Covers, LStrip;
      NothingStripped(route, path);
    }
  }

  lemma PrefixComesBack(route: Route, rest: string)
    requires route.stripPrefix && (rest == route.prefix || route.prefix + "/" <= rest)
    ensures Rebuilds(route, "/" + rest)
  {
    var prefix, path := "/" + route.prefix, "/" + rest;
    if rest != route.prefix {
      assert prefix + "/" == "/" + (route.prefix + "/");
      assert prefix + "/" <= path;
      assert path[|prefix|] == (prefix + "/")[|prefix|] == '/';
      assert prefix + path[|prefix|..] == path;
      assert path != prefix;
    }
  }

  lemma NothingStripped(route: Route, path: string)
    requires route.stripPrefix && Trimmed(route.prefix) && !OneLeadingSlash(path)
    ensures BuildDownstreamPath(route, path) == path && !Rebuilds(route, path)
  {
    var prefix := "/" + route.prefix;
    assert prefix[0] == '/' && prefix[1] != '/';
    assert !(prefix <= path);
    assert |"/" + route.prefix + path| > |path|;
  }

  // A route that matched strips its prefix, so that putting it back gives the path again,
  // exactly when the path has one leading slash; any other path goes downstream as it is.
  lemma StripRoundTrip(routes: map<string, Route>, path: string, route: Route)
    requires forall p :: p in routes ==> Canonical(p) && routes[p].prefix == p
    requires Answers(routes, path, Some(route)) && route.stripPrefix
    ensures Rebuilds(route, path) <==> OneLeadingSlash(path)
    ensures !OneLeadingSlash(path) ==> BuildDownstreamPath(route, path) == path
  {
    hide HasDots, SingleSlashes, Covers, Rebuilds, BuildDownstreamPath;
    var p :| Longest(routes, path, p) && routes[p] == route;
    assert Canonical(p);
    RoundTripOfCovered(route, path);
  }

  // The path of every request that is routed: as it came without `stripPrefix`, and also when it has
  // no slash or several in front; else what follows the prefix, from its slash on, or just a slash.
  lemma DownstreamMeans(routes: map<string, Route>, path: string, route: Route)
    requires forall p :: p in routes ==> Canonical(p) && routes[p].prefix == p
    requires Answers(routes, path, Some(route))
    ensures
      var downstream, prefix := BuildDownstreamPath(route, path), "/" + route.prefix;
      var oneSlash := path != "" && path[0] == '/' && (|path| > 1 ==> path[1] != '/');
      && (!route.stripPrefix || !oneSlash ==> downstream == path)
      && (route.stripPrefix && oneSlash ==>
            && downstream != "" && downstream[0] == '/'
            && (path == prefix ==> downstream == "/") && (path != prefix ==> prefix + downstream == path))
  {
    if route.stripPrefix {
      StripRoundTrip(routes, path, route);
      hide Answers, Canonical, BuildDownstreamPath;
    }
  }

  lemma LStripDropsSlash(s: string)
    ensures LStrip("/" + s) == LStrip(s)
  {
    assert ("/" + s)[1..] == s;
  }

  // A prefix matches a path that has a second slash before it, but is not stripped from it.
  lemma DoubleSlashIsNotStripped(route: Route)
    requires Trimmed(route.prefix) && route.stripPrefix
    ensures
      var path := "/" + ("/" + route.prefix);
      Answers(map[route.prefix := route], path, Some(route)) && BuildDownstreamPath(route, path) == path
  {
    var path := "/" + ("/" + route.prefix);
    LStripDropsSlash("/" + route.prefix);
    LStripDropsSlash(route.prefix);
    assert LStrip(route.prefix) == route.prefix;
    assert path[0] == '/' && path[1] == ("/" + route.prefix)[0];
    hide *;
    CoversAsText(route.prefix, path);
    NothingStripped(route, path);
    OnlyRouteAnswers(route, path);
  }

  lemma OnlyRouteAnswers(route: Route, path: string)
    ensures Covers(route.prefix, path) ==> Answers(map[route.prefix := route], path, Some(route))
  {
    hide Covers;
    assert Covers(route.prefix, path) ==> Longest(map[route.prefix := route], path, route.prefix);
  }
}
