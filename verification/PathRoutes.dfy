/** Routing agent paths to container paths and back, at the level of the path texts. */
module PathRoutes {
  import opened Basics
  import opened PathText

  // ---- normalised paths ----

  /** A normalised absolute path: exactly two leading slashes are kept, any other number counts as one. */
  datatype Location = Location(double: bool, parts: seq<string>)

  predicate CleanPart(part: string) {
    part != "" && part != "." && part != ".." && '/' !in part
  }

  predicate Clean(parts: seq<string>) {
    forall i :: 0 <= i < |parts| ==> CleanPart(parts[i])
  }

  function Slashes(count: nat): string {
    if count == 0 then "" else "/" + Slashes(count - 1)
  }

  function LeadOf(double: bool): string {
    if double then "//" else "/"
  }

  function Render(l: Location): (path: string)
    ensures IsAbsolute(path)
  {
    LeadOf(l.double) + Join(l.parts, '/')
  }

  /** Parts of an absolute path: `.` and empty parts vanish, `..` takes one back. */
  function Resolve(parts: seq<string>): seq<string> {
    if parts == [] then []
    else
      var before, last := Resolve(parts[..|parts| - 1]), parts[|parts| - 1];
      if last == "" || last == "." then before
      else if last == ".." then if before == [] then [] else before[..|before| - 1]
      else before + [last]
  }

  predicate IsAbsolute(path: string) {
    path != "" && path[0] == '/'
  }

  /** Parts of a relative path: a leading `..` stays. */
  function ResolveRelative(parts: seq<string>): seq<string> {
    if parts == [] then []
    else
      var before, last := ResolveRelative(parts[..|parts| - 1]), parts[|parts| - 1];
      if last == "" || last == "." then before
      else if last == ".." && before != [] && before[|before| - 1] != ".." then before[..|before| - 1]
      else before + [last]
  }

  /**
   * `normalize_unix_path`. An empty path is the root; a relative one is resolved as such and then put
   * below the root, where `.` and a leading `..` are still parts.
   */
  function Normalize(path: string): Location {
    if IsAbsolute(path) then
      Location(|path| >= 2 && path[1] == '/' && !(|path| >= 3 && path[2] == '/'), Resolve(Split(path, '/')))
    else if path == "" then Location(false, [])
    else
      var parts := ResolveRelative(Split(path, '/'));
      Location(false, if parts == [] then ["."] else parts)
  }

  lemma {:induction false} ResolveIsClean(parts: seq<string>)
    requires NoSlash(parts, '/')
    ensures Clean(Resolve(parts))
  {
    if parts != [] {
      assert '/' !in parts[|parts| - 1];
      ResolveIsClean(parts[..|parts| - 1]);
    }
  }

  lemma NormalizedIsClean(path: string)
    requires IsAbsolute(path)
    ensures Clean(Normalize(path).parts)
  {
    SplitHasNoSlash(path, '/');
    ResolveIsClean(Split(path, '/'));
  }

  lemma {:induction false} ResolveClean(parts: seq<string>)
    requires Clean(parts)
    ensures Resolve(parts) == parts
  {
    if parts != [] {
      var last := |parts| - 1;
      assert CleanPart(parts[last]);
      ResolveClean(parts[..last]);
      assert parts == parts[..last] + [parts[last]];
    }
  }

  lemma {:induction false} ResolveSkipsEmpty(parts: seq<string>)
    ensures Resolve([""] + parts) == Resolve(parts)
  {
    var longer := [""] + parts;
    assert longer[|longer| - 1] == if parts == [] then "" else parts[|parts| - 1];
    if parts != [] {
      ResolveSkipsEmpty(parts[..|parts| - 1]);
      assert longer[..|longer| - 1] == [""] + parts[..|parts| - 1];
    } else {
      assert longer[..0] == [];
    }
  }

  lemma {:induction false} ResolveSkipsSlashes(count: nat, text: string)
    ensures Resolve(Split(Slashes(count) + text, '/')) == Resolve(Split(text, '/'))
  {
    hide Resolve, Split;
    if count == 0 {
      assert Slashes(0) + text == text;
    } else {
      var rest := Slashes(count - 1) + text;
      ResolveSkipsSlashes(count - 1, text);
      assert Slashes(count) + text == "" + ['/'] + rest;
      SplitConcat("", rest, '/');
      SplitEmpty();
      ResolveSkipsEmpty(Split(rest, '/'));
    }
  }

  lemma SplitEmpty()
    ensures Split("", '/') == [""]
  {
  }

  lemma CleanHasNoSlash(parts: seq<string>)
    requires Clean(parts)
    ensures NoSlash(parts, '/')
  {
  }

  lemma ResolveJoined(parts: seq<string>)
    requires Clean(parts)
    ensures Resolve(Split(Join(parts, '/'), '/')) == parts
  {
    if parts == [] {
      SplitEmpty();
      assert Resolve([""]) == Resolve([]) by { ResolveSkipsEmpty([]); assert [""] + [] == [""]; }
    } else {
      CleanHasNoSlash(parts);
      SplitJoin(parts, '/');
      ResolveClean(parts);
    }
  }

  lemma {:induction false} JoinedStart(parts: seq<string>)
    requires Clean(parts)
    ensures parts == [] <==> Join(parts, '/') == ""
    ensures parts != [] ==> Join(parts, '/')[0] != '/'
    decreases |parts|
  {
    if parts != [] {
      assert CleanPart(parts[0]);
      if |parts| > 1 {
        JoinedStart(parts[..|parts| - 1]);
      }
    }
  }

  /** Any number of slashes, then clean parts. */
  lemma NormalizeSlashes(count: nat, parts: seq<string>)
    requires count >= 1 && Clean(parts)
    ensures IsAbsolute(Slashes(count) + Join(parts, '/'))
    ensures Normalize(Slashes(count) + Join(parts, '/')) == Location(count == 2, parts)
  {
    hide Resolve, Split, Join;
    ResolveSkipsSlashes(count, Join(parts, '/'));
    ResolveJoined(parts);
    JoinedStart(parts);
    SlashesStart(count);
  }

  lemma SlashesStart(count: nat)
    ensures |Slashes(count)| == count && forall i :: 0 <= i < count ==> Slashes(count)[i] == '/'
  {
    if count > 0 {
      SlashesStart(count - 1);
    }
  }

  lemma LeadIsSlashes(double: bool)
    ensures LeadOf(double) == Slashes(if double then 2 else 1)
  {
    assert Slashes(1) == "/" + Slashes(0);
    assert Slashes(2) == "/" + Slashes(1);
  }

  /** Normalising a normalised path changes nothing. */
  lemma NormalizeRender(l: Location)
    requires Clean(l.parts)
    ensures IsAbsolute(Render(l)) && Normalize(Render(l)) == l
  {
    LeadIsSlashes(l.double);
    NormalizeSlashes(if l.double then 2 else 1, l.parts);
    hide Normalize, Join;
  }

  /** Walking along the parts from a place: down into a part, up at `..`, and from a relative start above it. */
  function Walk(from: seq<string>, parts: seq<string>, relative: bool): seq<string>
    decreases |parts|
  {
    if parts == [] then from else Walk(Stepped(from, parts[0], relative), parts[1..], relative)
  }

  function Stepped(from: seq<string>, part: string, relative: bool): seq<string> {
    if part == "" || part == "." then from
    else if part != ".." then from + [part]
    else if from != [] && from[|from| - 1] != ".." then from[..|from| - 1]
    else if relative then from + [".."]
    else []
  }

  lemma {:induction false} WalkSnoc(from: seq<string>, parts: seq<string>, last: string, relative: bool)
    ensures Walk(from, parts + [last], relative) == Stepped(Walk(from, parts, relative), last, relative)
    decreases |parts|
  {
    if parts == [] {
      assert [last][1..] == [] && [] + [last] == [last];
    } else {
      assert (parts + [last])[1..] == parts[1..] + [last];
      WalkSnoc(Stepped(from, parts[0], relative), parts[1..], last, relative);
    }
  }

  lemma {:induction false} ResolveIsWalk(parts: seq<string>)
    ensures Resolve(parts) == Walk([], parts, false) && ".." !in Resolve(parts)
  {
    if parts != [] {
      var n := |parts| - 1;
      ResolveIsWalk(parts[..n]);
      WalkSnoc([], parts[..n], parts[n], false);
      assert parts == parts[..n] + [parts[n]];
    }
  }

  lemma {:induction false} RelativeIsWalk(parts: seq<string>)
    ensures ResolveRelative(parts) == Walk([], parts, true)
  {
    if parts != [] {
      var n := |parts| - 1;
      RelativeIsWalk(parts[..n]);
      WalkSnoc([], parts[..n], parts[n], true);
      assert parts == parts[..n] + [parts[n]];
    }
  }

  /**
   * Normalising walks along the path's parts from the root, where `..` stays at the root, and keeps
   * exactly two leading slashes; a relative path may climb above its start.
   */
  lemma NormalizeWalks(path: string)
    ensures IsAbsolute(path) ==> Normalize(path).parts == Walk([], Split(path, '/'), false)
    ensures IsAbsolute(path) ==>
              (Normalize(path).double <==> StartsWith(path, "//") && !StartsWith(path, "///"))
    ensures path != "" && !IsAbsolute(path) ==>
              var walked := Walk([], Split(path, '/'), true);
              Normalize(path) == Location(false, if walked == [] then ["."] else walked)
    ensures Normalize("") == Location(false, [])
  {
    ResolveIsWalk(Split(path, '/'));
    RelativeIsWalk(Split(path, '/'));
    LeadingSlashes(path);
    hide Resolve, ResolveRelative, Walk, Split;
  }

  lemma LeadingSlashes(path: string)
    ensures StartsWith(path, "//") <==> |path| >= 2 && path[0] == '/' && path[1] == '/'
    ensures StartsWith(path, "///") <==> |path| >= 3 && path[0] == '/' && path[1] == '/' && path[2] == '/'
  {
    if StartsWith(path, "//") {
      assert path[0] == path[..2][0] && path[1] == path[..2][1];
    }
    if StartsWith(path, "///") {
      assert path[0] == path[..3][0] && path[1] == path[..3][1] && path[2] == path[..3][2];
    }
  }

  // ---- places under a root ----

  /** `root` extended by parts; under the root `/` there are only paths with two slashes, and conversely. */
  function Under(root: Location, suffix: seq<string>): Location {
    if suffix == [] then root
    else Location(if root.parts == [] then !root.double else root.double, root.parts + suffix)
  }

  /** The path text of two bare slashes. */
  predicate IsBareDouble(l: Location) {
    l.double && l.parts == []
  }

  lemma NormalizeUnder(root: Location, suffix: seq<string>)
    requires Clean(root.parts) && Clean(suffix) && suffix != []
    ensures IsAbsolute(Render(root) + "/" + Join(suffix, '/'))
    ensures Normalize(Render(root) + "/" + Join(suffix, '/')) == Under(root, suffix)
  {
    hide Normalize, Resolve, Split;
    LeadIsSlashes(root.double);
    var count := if root.double then 2 else 1;
    if root.parts == [] {
      assert Slashes(count + 1) == "/" + Slashes(count);
      SlashesSnoc(count);
      assert Render(root) + "/" + Join(suffix, '/') == Slashes(count + 1) + Join(suffix, '/');
      NormalizeSlashes(count + 1, suffix);
    } else {
      JoinConcat(root.parts, suffix, '/');
      assert Render(root) + "/" + Join(suffix, '/') == Slashes(count) + Join(root.parts + suffix, '/');
      NormalizeSlashes(count, root.parts + suffix);
    }
  }

  lemma SlashesSnoc(count: nat)
    ensures Slashes(count) + "/" == Slashes(count + 1)
  {
    if count > 0 {
      SlashesSnoc(count - 1);
    }
  }

  predicate StartsWith(path: string, prefix: string) {
    |path| >= |prefix| && path[..|prefix|] == prefix
  }

  /** `unix_path_has_prefix`, on texts that are normalised first. */
  predicate HasPrefix(path: string, prefix: string) {
    var p, q := Render(Normalize(path)), Render(Normalize(prefix));
    p == q || StartsWith(p, q + "/")
  }

  function StripSlashes(s: string): string {
    if s != "" && s[0] == '/' then StripSlashes(s[1..]) else s
  }

  /** `normalized[len(prefix):].lstrip("/")` */
  function SuffixText(path: string, prefix: string): string {
    if |prefix| <= |path| then StripSlashes(path[|prefix|..]) else ""
  }

  lemma RenderUnder(root: Location, suffix: seq<string>)
    requires suffix != [] && !IsBareDouble(root)
    ensures Render(Under(root, suffix)) == Render(root) + ("/" + Join(suffix, '/'))
  {
    hide Join;
    assert Join([], '/') == "" by { JoinNothing(); }
    if root.parts == [] {
      assert [] + suffix == suffix;
    } else {
      JoinConcat(root.parts, suffix, '/');
    }
  }

  lemma JoinNothing()
    ensures Join([], '/') == ""
  {
  }

  lemma StripOne(rest: string)
    requires rest != "" && rest[0] != '/'
    ensures StripSlashes("/" + rest) == rest
  {
    assert ("/" + rest)[1..] == rest;
  }

  /** The text of a place under a root, and what is left of it after the root. */
  lemma UnderText(root: Location, suffix: seq<string>)
    requires Clean(suffix) && !IsBareDouble(root)
    ensures suffix != [] ==> StartsWith(Render(Under(root, suffix)), Render(root) + "/")
    ensures SuffixText(Render(Under(root, suffix)), Render(root)) == Join(suffix, '/')
  {
    hide Join, Render;
    JoinedStart(suffix);
    var rest, text := Join(suffix, '/'), Render(root);
    if suffix != [] {
      RenderUnder(root, suffix);
      assert (text + ("/" + rest))[..|text| + 1] == text + "/";
      assert (text + ("/" + rest))[|text|..] == "/" + rest;
      StripOne(rest);
    } else {
      assert text[|text|..] == "";
    }
  }

  /** Parts whose text continues another's are its continuation. */
  lemma JoinPrefix(a: seq<string>, b: seq<string>)
    requires a != [] && Clean(a) && Clean(b) && StartsWith(Join(b, '/'), Join(a, '/') + "/")
    ensures |a| < |b| && b[..|a|] == a
  {
    var x, y := Join(a, '/'), Join(b, '/')[|Join(a, '/')| + 1..];
    assert Join(b, '/') == x + ['/'] + y;
    assert b != [] by { assert Join([], '/') == ""; }
    CleanHasNoSlash(a);
    CleanHasNoSlash(b);
    hide Split, Join;
    SplitConcat(x, y, '/');
    SplitJoin(a, '/');
    SplitJoin(b, '/');
    assert b == a + Split(y, '/');
  }

  /** A root of two bare slashes matches nothing but itself, so what is mapped below it is not mapped back. */
  lemma BareRootMatchesOnlyItself(l: Location)
    requires Clean(l.parts)
    ensures HasPrefix(Render(l), "//") <==> IsBareDouble(l)
  {
    JoinNothing();
    NormalizeRender(l);
    NormalizeRender(Location(true, []));
    assert "//" == Render(Location(true, []));
    NoThirdSlash(l);
    hide Normalize, Render, Clean;
    assert "//" + "/" == "///";
  }

  lemma NoThirdSlash(l: Location)
    requires Clean(l.parts)
    ensures !StartsWith(Render(l), "///")
    ensures Render(l) == "//" <==> IsBareDouble(l)
  {
    JoinedStart(l.parts);
    hide Join, Clean;
    var text, rest := Render(l), Join(l.parts, '/');
    assert |text| == |LeadOf(l.double)| + |rest|;
    assert rest != "" ==> text[|LeadOf(l.double)|] == rest[0];
    var front := if |text| >= 3 then text[..3] else text;
    assert |text| >= 3 ==> front[1] == text[1] && front[2] == text[2];
  }

  lemma PartsAreClean(parts: seq<string>, n: nat)
    requires Clean(parts) && n <= |parts|
    ensures Clean(parts[n..])
  {
  }

  /** A path text that continues a root's text is a place under that root. */
  lemma ContinuesRoot(l: Location, root: Location) returns (suffix: seq<string>)
    requires Clean(l.parts) && Clean(root.parts) && !IsBareDouble(l) && !IsBareDouble(root)
    requires StartsWith(Render(l), Render(root) + "/")
    ensures Clean(suffix) && suffix != [] && l == Under(root, suffix)
  {
    JoinedStart(l.parts);
    JoinedStart(root.parts);
    var x, y := Join(l.parts, '/'), Join(root.parts, '/');
    hide Join, Clean;
    assert LeadOf(root.double) + y + "/" == LeadOf(root.double) + (y + "/");
    if root.parts == [] {
      OnlyDoubled(l.double, x);
      suffix := l.parts;
      assert [] + suffix == suffix;
    } else {
      SameLead(l.double, x, root.double, y + "/");
      JoinPrefix(root.parts, l.parts);
      suffix := l.parts[|root.parts|..];
      assert l.parts == root.parts + suffix;
      PartsAreClean(l.parts, |root.parts|);
    }
  }

  /** A text that starts with two slashes has a double lead. */
  lemma OnlyDoubled(double: bool, x: string)
    requires x != "" ==> x[0] != '/'
    requires StartsWith(LeadOf(double) + x, "/" + ("" + "/"))
    ensures double
  {
    var p := LeadOf(double) + x;
    assert "/" + ("" + "/") == "//";
    assert p[1] == p[..2][1] == '/';
  }

  /** Equal leads, and the rest of one text starts with the rest of the other. */
  lemma SameLead(d: bool, x: string, e: bool, y: string)
    requires (x != "" ==> x[0] != '/') && y != "" && y[0] != '/'
    requires StartsWith(LeadOf(d) + x, LeadOf(e) + y)
    ensures d == e && StartsWith(x, y)
  {
    var p, q := LeadOf(d) + x, LeadOf(e) + y;
    assert forall i :: 0 <= i < |q| ==> p[i] == p[..|q|][i] == q[i];
    assert q[|LeadOf(e)|] == y[0];
    assert x != "" ==> p[|LeadOf(d)|] == x[0];
    assert d == e;
    assert forall i :: 0 <= i < |y| ==> x[i] == p[|LeadOf(d)| + i] && y[i] == q[|LeadOf(e)| + i];
  }

  lemma UnderIsClean(root: Location, suffix: seq<string>)
    requires Clean(root.parts) && Clean(suffix)
    ensures Clean(Under(root, suffix).parts)
    ensures !IsBareDouble(root) ==> !IsBareDouble(Under(root, suffix))
  {
  }

  lemma UnderTwice(root: Location, a: seq<string>, b: seq<string>)
    requires !IsBareDouble(root)
    ensures Under(Under(root, a), b) == Under(root, a + b)
  {
    assert root.parts + a + b == root.parts + (a + b);
    assert a + [] == a && [] + b == b;
  }

  // ---- routes ----

  datatype Route = Route(agentPath: string, containerPath: string, writable: bool)

  /** Which end of a route a lookup goes by. */
  datatype Side = Agent | Container

  function Root(r: Route, side: Side): Location {
    Normalize(if side == Agent then r.agentPath else r.containerPath)
  }

  function RootLength(r: Route, side: Side): nat {
    |Render(Root(r, side))|
  }

  function InsertRoute(r: Route, routes: seq<Route>, side: Side): seq<Route> {
    if routes == [] || RootLength(r, side) >= RootLength(routes[0], side) then [r] + routes
    else [routes[0]] + InsertRoute(r, routes[1..], side)
  }

  lemma {:induction false} InsertRouteMembers(r: Route, routes: seq<Route>, side: Side)
    ensures forall x :: x in InsertRoute(r, routes, side) <==> x == r || x in routes
  {
    hide RootLength;
    if routes != [] {
      InsertRouteMembers(r, routes[1..], side);
      assert routes == [routes[0]] + routes[1..];
    }
  }

  /** The stable sort by descending length of the normalised root. */
  function LongestFirst(routes: seq<Route>, side: Side): seq<Route> {
    if routes == [] then [] else InsertRoute(routes[0], LongestFirst(routes[1..], side), side)
  }

  lemma {:induction false} LongestFirstMembers(routes: seq<Route>, side: Side)
    ensures forall x :: x in LongestFirst(routes, side) <==> x in routes
  {
    if routes != [] {
      LongestFirstMembers(routes[1..], side);
      InsertRouteMembers(routes[0], LongestFirst(routes[1..], side), side);
      hide InsertRoute;
      assert routes == [routes[0]] + routes[1..];
    }
  }

  /** The route's root on this side is a prefix of the path. */
  predicate Matches(r: Route, side: Side, path: string) {
    HasPrefix(path, Render(Root(r, side)))
  }

  /** The first route of a list that matches the path. */
  function FirstMatch(routes: seq<Route>, side: Side, path: string): Option<Route> {
    if routes == [] then None
    else if Matches(routes[0], side, path) then Some(routes[0])
    else FirstMatch(routes[1..], side, path)
  }

  function Choose(routes: seq<Route>, side: Side, path: string): Option<Route> {
    FirstMatch(LongestFirst(routes, side), side, path)
  }

  /** A path text with its root on one side replaced by the root on the other. */
  function Rerooted(path: string, from: Location, to: Location): string {
    var suffix := SuffixText(path, Render(from));
    if suffix == "" then Render(to) else Render(Normalize(Render(to) + "/" + suffix))
  }

  function Translate(routes: seq<Route>, from: Side, to: Side, path: string): string {
    var normalized := Render(Normalize(path));
    var route := Choose(routes, from, normalized);
    if route.None? then normalized else Rerooted(normalized, Root(route.value, from), Root(route.value, to))
  }

  function ToContainerPath(routes: seq<Route>, path: string): string {
    Translate(routes, Agent, Container, path)
  }

  function ToAgentPath(routes: seq<Route>, path: string): string {
    Translate(routes, Container, Agent, path)
  }

  function NonEmpty(parts: seq<string>): seq<string> {
    if parts == [] then []
    else (if parts[0] == "" then [] else [parts[0]]) + NonEmpty(parts[1..])
  }

  datatype Transfer = Transfer(root: string, parts: seq<string>)

  function TransferRoute(routes: seq<Route>, path: string, requireWritable: bool): Option<Transfer> {
    var normalized := Render(Normalize(path));
    var route := Choose(routes, Agent, normalized);
    if route.None? || (requireWritable && !route.value.writable) then None
    else
      Some(Transfer(Render(Root(route.value, Container)),
                    NonEmpty(Split(SuffixText(normalized, Render(Root(route.value, Agent))), '/'))))
  }

  predicate IsAllowedPath(routes: seq<Route>, path: string, writable: bool) {
    IsAbsolute(path) && TransferRoute(routes, path, writable).Some?
  }

  /** `sandbox_path_for_agent_path` */
  function SandboxPath(routes: seq<Route>, path: string, requireWritable: bool): Option<string> {
    if !IsAllowedPath(routes, path, requireWritable) then None else Some(ToContainerPath(routes, path))
  }

  // ---- the choice of a route ----

  ghost predicate Falling(routes: seq<Route>, side: Side) {
    forall i, j :: 0 <= i < j < |routes| ==> RootLength(routes[i], side) >= RootLength(routes[j], side)
  }

  lemma {:induction false} InsertFalls(r: Route, routes: seq<Route>, side: Side)
    requires Falling(routes, side)
    ensures Falling(InsertRoute(r, routes, side), side)
  {
    hide RootLength;
    if routes != [] && RootLength(r, side) < RootLength(routes[0], side) {
      var rest := routes[1..];
      assert Falling(rest, side);
      InsertFalls(r, rest, side);
      var q := InsertRoute(r, rest, side);
      InsertRouteMembers(r, rest, side);
      assert routes == [routes[0]] + rest;
      forall j | 0 <= j < |q| ensures RootLength(routes[0], side) >= RootLength(q[j], side) {
        assert q[j] in q;
        if q[j] != r {
          var k :| 0 <= k < |rest| && rest[k] == q[j];
          assert routes[k + 1] == q[j];
        }
      }
    }
  }

  lemma {:induction false} LongestFirstFalls(routes: seq<Route>, side: Side)
    ensures Falling(LongestFirst(routes, side), side)
  {
    hide RootLength;
    if routes != [] {
      LongestFirstFalls(routes[1..], side);
      InsertFalls(routes[0], LongestFirst(routes[1..], side), side);
    }
  }

  /** The route matches the path and no other that does is more specific. */
  ghost predicate MostSpecific(routes: seq<Route>, side: Side, path: string, r: Route) {
    r in routes && Matches(r, side, path) &&
    forall x | x in routes :: Matches(x, side, path) ==> RootLength(x, side) <= RootLength(r, side)
  }

  lemma {:induction false} FirstMatchFacts(routes: seq<Route>, side: Side, path: string)
    requires Falling(routes, side)
    ensures var chosen := FirstMatch(routes, side, path);
            (chosen.Some? <==> exists r :: r in routes && Matches(r, side, path)) &&
            (chosen.Some? ==> MostSpecific(routes, side, path, chosen.value))
  {
    hide RootLength, Matches;
    if routes != [] {
      FirstIsLongest(routes, side);
      var rest := routes[1..];
      assert routes == [routes[0]] + rest;
      FirstMatchFacts(rest, side, path);
    }
  }

  lemma FirstIsLongest(routes: seq<Route>, side: Side)
    requires routes != [] && Falling(routes, side)
    ensures Falling(routes[1..], side)
    ensures forall r | r in routes :: RootLength(r, side) <= RootLength(routes[0], side)
  {
    hide RootLength;
  }

  /**
   * The chosen route matches the path and no other matching route is more specific; there is one
   * exactly when some route matches. Authorisation and translation both go by this choice.
   */
  lemma ChoiceIsMostSpecific(routes: seq<Route>, side: Side, path: string)
    ensures var chosen := Choose(routes, side, path);
            (chosen.Some? <==> exists r :: r in routes && Matches(r, side, path)) &&
            (chosen.Some? ==> MostSpecific(routes, side, path, chosen.value))
  {
    hide RootLength, Matches;
    LongestFirstMembers(routes, side);
    LongestFirstFalls(routes, side);
    FirstMatchFacts(LongestFirst(routes, side), side, path);
  }

  /**
   * A path is allowed exactly when it is absolute and has a route, for writing only if the most
   * specific one is writable: a writable parent never opens a read-only place below it.
   */
  lemma AllowedByMostSpecific(routes: seq<Route>, path: string)
    ensures var normalized := Render(Normalize(path));
            (IsAllowedPath(routes, path, false) <==>
               IsAbsolute(path) && exists r :: r in routes && Matches(r, Agent, normalized)) &&
            (IsAllowedPath(routes, path, true) ==>
               IsAllowedPath(routes, path, false) &&
               exists r :: MostSpecific(routes, Agent, normalized, r) && r.writable) &&
            (IsAllowedPath(routes, path, false) &&
             (forall r :: MostSpecific(routes, Agent, normalized, r) ==> r.writable) ==>
               IsAllowedPath(routes, path, true))
  {
    hide Normalize, Render, Choose, Matches, MostSpecific, SuffixText, NonEmpty, Split;
    ChoiceIsMostSpecific(routes, Agent, Render(Normalize(path)));
  }

  /** A path without a route stays what it is, normalised. */
  lemma UnroutedPathStays(routes: seq<Route>, path: string)
    ensures (forall r | r in routes :: !Matches(r, Agent, Render(Normalize(path)))) ==>
              ToContainerPath(routes, path) == Render(Normalize(path))
    ensures (forall r | r in routes :: !Matches(r, Container, Render(Normalize(path)))) ==>
              ToAgentPath(routes, path) == Render(Normalize(path))
  {
    ChoiceIsMostSpecific(routes, Agent, Render(Normalize(path)));
    ChoiceIsMostSpecific(routes, Container, Render(Normalize(path)));
    hide Normalize, Render, Matches, Rerooted;
  }

  predicate Regular(l: Location) {
    Clean(l.parts) && !IsBareDouble(l)
  }

  predicate CleanRoots(routes: seq<Route>) {
    forall r | r in routes :: Clean(Root(r, Agent).parts) && Clean(Root(r, Container).parts)
  }

  /**
   * A route's root on one side goes to its root on the other, unless another route has the same root
   * there.
   */
  lemma RootsCorrespond(routes: seq<Route>, r: Route)
    requires r in routes && CleanRoots(routes)
    ensures (forall x | x in routes :: Normalize(x.agentPath) == Normalize(r.agentPath) ==> x == r) ==>
              ToContainerPath(routes, r.agentPath) == Render(Normalize(r.containerPath))
    ensures (forall x | x in routes :: Normalize(x.containerPath) == Normalize(r.containerPath) ==> x == r) ==>
              ToAgentPath(routes, r.containerPath) == Render(Normalize(r.agentPath))
  {
    hide Normalize, Render, HasPrefix, Choose, Clean;
    if forall x | x in routes :: Normalize(x.agentPath) == Normalize(r.agentPath) ==> x == r {
      RootIsChosen(routes, r, Agent);
    }
    if forall x | x in routes :: Normalize(x.containerPath) == Normalize(r.containerPath) ==> x == r {
      RootIsChosen(routes, r, Container);
    }
  }

  lemma RootIsChosen(routes: seq<Route>, r: Route, side: Side)
    requires r in routes && CleanRoots(routes)
    requires forall x | x in routes :: Root(x, side) == Root(r, side) ==> x == r
    ensures Choose(routes, side, Render(Root(r, side))) == Some(r)
  {
    hide Choose, Clean, Root, Normalize, Render;
    var path := Render(Root(r, side));
    ChoiceIsMostSpecific(routes, side, path);
    var chosen := Choose(routes, side, path).value;
    NormalizeRender(Root(r, side));
    NormalizeRender(Root(chosen, side));
  }

  /** No root is two bare slashes, or keeps a `.` or `..` of a relative path. */
  predicate RegularRoots(routes: seq<Route>) {
    forall r | r in routes :: Regular(Root(r, Agent)) && Regular(Root(r, Container))
  }

  /** Roots given as absolute paths are clean. */
  lemma AbsoluteRootsAreClean(routes: seq<Route>)
    requires forall r | r in routes :: IsAbsolute(r.agentPath) && IsAbsolute(r.containerPath)
    ensures CleanRoots(routes)
  {
    forall r | r in routes ensures Clean(Root(r, Agent).parts) && Clean(Root(r, Container).parts) {
      NormalizedIsClean(r.agentPath);
      NormalizedIsClean(r.containerPath);
    }
  }

  /** The place lies under the root; two bare slashes lie under `/` and themselves, and nothing else under them. */
  ghost predicate LiesUnder(l: Location, root: Location) {
    if IsBareDouble(l) then root.parts == []
    else !IsBareDouble(root) && exists s :: Clean(s) && l == Under(root, s)
  }

  /** A route matches a path exactly when the path lies under the place that its root's text means. */
  lemma MatchesMeansUnder(r: Route, side: Side, l: Location)
    requires Clean(l.parts)
    ensures Matches(r, side, Render(l)) <==> LiesUnder(l, Normalize(Render(Root(r, side))))
  {
    NormalizedIsClean(Render(Root(r, side)));
    NormalizeRender(l);
    PrefixMeansUnder(l, Normalize(Render(Root(r, side))));
    hide Normalize, Render, LiesUnder, Clean;
  }

  lemma PrefixMeansUnder(l: Location, root: Location)
    requires Clean(l.parts) && Clean(root.parts)
    ensures Render(l) == Render(root) || StartsWith(Render(l), Render(root) + "/") <==> LiesUnder(l, root)
  {
    NormalizeRender(l);
    NormalizeRender(root);
    hide Normalize, Under, Clean, SuffixText, Render;
    if IsBareDouble(root) {
      BareRootText(l, root);
    } else if IsBareDouble(l) {
      BarePathText(l, root);
    } else {
      RegularPrefix(l, root);
    }
  }

  lemma BareRootText(l: Location, root: Location)
    requires Clean(l.parts) && IsBareDouble(root)
    ensures Render(l) == Render(root) || StartsWith(Render(l), Render(root) + "/") <==> LiesUnder(l, root)
  {
    JoinNothing();
    assert Render(root) == "//";
    NoThirdSlash(l);
    hide Render, Clean;
    assert "//" + "/" == "///";
  }

  lemma BarePathText(l: Location, root: Location)
    requires IsBareDouble(l) && Clean(root.parts) && !IsBareDouble(root)
    ensures Render(l) == Render(root) || StartsWith(Render(l), Render(root) + "/") <==> root.parts == []
  {
    JoinNothing();
    JoinedStart(root.parts);
    assert Render(l) == "//";
    if root.parts == [] {
      assert Render(root) + "/" == "//";
    } else {
      var text := Render(root);
      assert text[|LeadOf(root.double)|] == Join(root.parts, '/')[0] != '/';
      assert |text + "/"| >= 3;
      assert text != "//" by { assert forall i :: 0 <= i < 2 ==> "//"[i] == '/'; }
    }
  }

  lemma RegularPrefix(l: Location, root: Location)
    requires Regular(l) && Regular(root)
    ensures Render(l) == Render(root) || StartsWith(Render(l), Render(root) + "/") <==> LiesUnder(l, root)
  {
    NormalizeRender(l);
    NormalizeRender(root);
    hide Normalize, Under, Clean, SuffixText, Render;
    if Render(l) == Render(root) {
      UnderNothing(root);
      assert l == root;
    } else if StartsWith(Render(l), Render(root) + "/") {
      var s := ContinuesRoot(l, root);
    }
    if s :| Clean(s) && l == Under(root, s) {
      UnderText(root, s);
      UnderNothing(root);
    }
  }

  /** For regular roots and places, that is extension by parts. */
  lemma RegularMatch(r: Route, side: Side, l: Location)
    requires Regular(Root(r, side)) && Regular(l)
    ensures Matches(r, side, Render(l)) <==> exists s :: Clean(s) && l == Under(Root(r, side), s)
  {
    MatchesMeansUnder(r, side, l);
    NormalizeRender(Root(r, side));
    hide Normalize, Render, Matches, Under, Clean;
  }

  lemma UnderNothing(root: Location)
    ensures Under(root, []) == root && Clean([])
  {
  }

  /** Rerooting keeps the parts below the root. */
  lemma RerootedUnder(path: string, from: Location, to: Location, suffix: seq<string>)
    requires SuffixText(path, Render(from)) == Join(suffix, '/') && Clean(to.parts) && Clean(suffix)
    ensures Rerooted(path, from, to) == Render(Under(to, suffix))
  {
    JoinedStart(suffix);
    hide Render, Normalize, SuffixText, Join;
    if suffix != [] {
      NormalizeUnder(to, suffix);
    }
    hide Clean;
  }

  lemma {:induction false} NonEmptyClean(parts: seq<string>)
    requires Clean(parts)
    ensures NonEmpty(parts) == parts
  {
    if parts != [] {
      assert CleanPart(parts[0]);
      NonEmptyClean(parts[1..]);
      assert parts == [parts[0]] + parts[1..];
    }
  }

  lemma SuffixParts(suffix: seq<string>)
    requires Clean(suffix)
    ensures NonEmpty(Split(Join(suffix, '/'), '/')) == suffix
  {
    if suffix == [] {
      JoinNothing();
      SplitEmpty();
      assert NonEmpty([""]) == [] + NonEmpty([]) by { assert [""][1..] == []; }
    } else {
      CleanHasNoSlash(suffix);
      SplitJoin(suffix, '/');
      NonEmptyClean(suffix);
    }
  }

  lemma RootIsRegular(routes: seq<Route>, r: Route, side: Side)
    requires RegularRoots(routes) && r in routes
    ensures Regular(Root(r, side))
  {
  }

  /** What is left of a place's text after a root's text it lies under. */
  lemma Remainder(l: Location, root: Location) returns (suffix: seq<string>)
    requires Clean(l.parts) && Clean(root.parts) && LiesUnder(l, root)
    ensures Clean(suffix) && SuffixText(Render(l), Render(root)) == Join(suffix, '/')
    ensures !IsBareDouble(l) ==> l == Under(root, suffix)
  {
    if IsBareDouble(l) {
      suffix := [];
      JoinNothing();
      assert Render(l) == "//" && (Render(root) == "/" || Render(root) == "//");
      assert StripSlashes("/") == "" by { assert "/"[1..] == ""; }
    } else {
      suffix :| Clean(suffix) && l == Under(root, suffix);
      UnderText(root, suffix);
      hide Render, Join, SuffixText;
    }
  }

  /** The route chosen for a path and the parts of the path below its root. */
  lemma ChosenRoute(routes: seq<Route>, side: Side, l: Location) returns (r: Route, suffix: seq<string>)
    requires RegularRoots(routes) && Regular(l) && Choose(routes, side, Render(l)).Some?
    ensures Choose(routes, side, Render(l)) == Some(r) && r in routes
    ensures Regular(Root(r, side)) && Clean(suffix) && l == Under(Root(r, side), suffix)
  {
    hide Normalize, Under, Clean, Render, Matches, RootLength;
    ChoiceIsMostSpecific(routes, side, Render(l));
    r := Choose(routes, side, Render(l)).value;
    RootIsRegular(routes, r, side);
    RegularMatch(r, side, l);
    suffix :| Clean(suffix) && l == Under(Root(r, side), suffix);
  }

  /** Translation moves the path's parts from under the chosen route's root to under its other root. */
  lemma TranslatedUnder(routes: seq<Route>, from: Side, to: Side, path: string, r: Route, suffix: seq<string>)
    requires Choose(routes, from, Render(Normalize(path))) == Some(r) && Clean(suffix) && Clean(Root(r, to).parts)
    requires SuffixText(Render(Normalize(path)), Render(Root(r, from))) == Join(suffix, '/')
    ensures Translate(routes, from, to, path) == Render(Under(Root(r, to), suffix))
  {
    hide Normalize, Under, Clean, Render, Choose, Rerooted, SuffixText, Join;
    RerootedUnder(Render(Normalize(path)), Root(r, from), Root(r, to), suffix);
  }

  /** The path a transfer spells out: its root's parts, then its own. */
  function Spelled(t: Transfer): Location {
    Location(Normalize(t.root).double, Normalize(t.root).parts + t.parts)
  }

  /**
   * Authorisation finds the same route as translation, refuses it only for lack of write access,
   * and names the same container path, except below a container root without parts, where the
   * number of leading slashes differs.
   */
  lemma TransferAgreesWithTranslation(routes: seq<Route>, path: string, requireWritable: bool)
    requires CleanRoots(routes) && Clean(Normalize(path).parts)
    ensures var route := Choose(routes, Agent, Render(Normalize(path)));
            var transfer := TransferRoute(routes, path, requireWritable);
            (transfer.Some? <==> route.Some? && (requireWritable ==> route.value.writable)) &&
            (transfer.Some? ==>
               (Spelled(transfer.value) == Normalize(ToContainerPath(routes, path)) <==>
                  transfer.value.parts == [] || Normalize(transfer.value.root).parts != []))
  {
    hide Normalize, Render, Choose, SuffixText, Join, Split, NonEmpty, Under, Clean, Matches, RootLength;
    if TransferRoute(routes, path, requireWritable).Some? {
      var r := Choose(routes, Agent, Render(Normalize(path))).value;
      ChoiceIsMostSpecific(routes, Agent, Render(Normalize(path)));
      var suffix := ChosenRemainder(r, Agent, Normalize(path));
      SuffixParts(suffix);
      TranslatedUnder(routes, Agent, Container, path, r, suffix);
      SpelledOut(Root(r, Container), suffix);
      hide Spelled;
    }
  }

  /**
   * The sandbox path of an allowed path is the most specific route's container root, extended by the
   * clean parts that the path has below that route's agent root.
   */
  lemma SandboxPathIsUnderRoot(routes: seq<Route>, path: string, requireWritable: bool)
    requires CleanRoots(routes) && Clean(Normalize(path).parts)
    requires SandboxPath(routes, path, requireWritable).Some?
    ensures exists r, suffix ::
              MostSpecific(routes, Agent, Render(Normalize(path)), r) && (requireWritable ==> r.writable) &&
              Clean(suffix) && (!IsBareDouble(Normalize(path)) ==> Normalize(path) == Under(Root(r, Agent), suffix)) &&
              SandboxPath(routes, path, requireWritable) == Some(Render(Under(Root(r, Container), suffix)))
  {
    hide Normalize, Render, Choose, SuffixText, Join, Split, NonEmpty, Under, Clean, Matches, RootLength, Translate;
    var r := Choose(routes, Agent, Render(Normalize(path))).value;
    ChoiceIsMostSpecific(routes, Agent, Render(Normalize(path)));
    var suffix := ChosenRemainder(r, Agent, Normalize(path));
    TranslatedUnder(routes, Agent, Container, path, r, suffix);
    assert MostSpecific(routes, Agent, Render(Normalize(path)), r);
  }

  /** And there they do differ: below any route to a container root without parts. */
  lemma TransferDiffersBelowSlash(r: Route, suffix: seq<string>)
    requires Regular(Root(r, Agent)) && Root(r, Container).parts == [] && Clean(suffix) && suffix != []
    ensures var path := Render(Under(Root(r, Agent), suffix));
            var transfer := TransferRoute([r], path, false);
            transfer.Some? && Spelled(transfer.value) != Normalize(ToContainerPath([r], path))
  {
    var l := Under(Root(r, Agent), suffix);
    UnderIsClean(Root(r, Agent), suffix);
    NormalizeRender(l);
    UnderText(Root(r, Agent), suffix);
    NormalizeRender(Root(r, Container));
    SuffixParts(suffix);
    RegularMatch(r, Agent, l);
    hide Normalize, Render, SuffixText, Join, Split, NonEmpty, Under, Clean, Matches, Spelled, ToContainerPath;
    assert CleanRoots([r]);
    assert LongestFirst([r], Agent) == [r] by {
      assert [r][1..] == [];
    }
    TransferAgreesWithTranslation([r], Render(l), false);
  }

  lemma ChosenRemainder(r: Route, side: Side, l: Location) returns (suffix: seq<string>)
    requires Clean(Root(r, side).parts) && Clean(l.parts) && Matches(r, side, Render(l))
    ensures Clean(suffix) && SuffixText(Render(l), Render(Root(r, side))) == Join(suffix, '/')
    ensures !IsBareDouble(l) ==> l == Under(Root(r, side), suffix)
  {
    MatchesMeansUnder(r, side, l);
    NormalizeRender(Root(r, side));
    hide Normalize, Render, Join, SuffixText, Matches, LiesUnder, Clean, Under;
    suffix := Remainder(l, Root(r, side));
  }

  lemma SpelledOut(root: Location, suffix: seq<string>)
    requires Clean(root.parts) && Clean(suffix)
    ensures var t := Transfer(Render(root), suffix);
            Normalize(t.root) == root && Normalize(Render(Under(root, suffix))) == Under(root, suffix) &&
            (Spelled(t) == Under(root, suffix) <==> suffix == [] || root.parts != [])
  {
    UnderIsClean(root, suffix);
    NormalizeRender(root);
    NormalizeRender(Under(root, suffix));
    hide Normalize, Render, Clean;
    assert root.parts + [] == root.parts;
  }

  // ---- there and back ----

  lemma UnderIsLonger(root: Location, suffix: seq<string>)
    requires !IsBareDouble(root)
    ensures |Render(Under(root, suffix))| >= |Render(root)|
    ensures suffix != [] ==> |Render(Under(root, suffix))| > |Render(root)|
  {
    hide Join, Render;
    if suffix != [] {
      RenderUnder(root, suffix);
    }
  }

  /** Of two roots of one path, the longer one lies under the shorter one. */
  lemma RootsNest(a: Location, s: seq<string>, b: Location, t: seq<string>) returns (u: seq<string>)
    requires Regular(a) && Regular(b) && Clean(s) && Clean(t) && Under(a, s) == Under(b, t)
    requires |Render(a)| <= |Render(b)|
    ensures Clean(u) && b == Under(a, u) && s == u + t
  {
    UnderIsLonger(b, t);
    hide Render, Clean;
    if s == [] {
      u := [];
      assert t == [];
      assert [] + t == t;
      UnderNothing(a);
    } else if t == [] {
      u := s;
      assert s + [] == s;
    } else if a.parts == [] {
      u := b.parts;
      NestedInSlash(a, s, b, t);
    } else {
      u := NestedParts(a, s, b, t);
    }
  }

  lemma NestedInSlash(a: Location, s: seq<string>, b: Location, t: seq<string>)
    requires !IsBareDouble(a) && !IsBareDouble(b) && Under(a, s) == Under(b, t)
    requires a.parts == [] && s != [] && t != []
    ensures b == Under(a, b.parts) && s == b.parts + t
  {
    assert [] + s == s;
    assert [] + b.parts == b.parts;
  }

  lemma NestedParts(a: Location, s: seq<string>, b: Location, t: seq<string>) returns (u: seq<string>)
    requires Regular(a) && Regular(b) && Clean(s) && Clean(t) && Under(a, s) == Under(b, t)
    requires |Render(a)| <= |Render(b)| && a.parts != [] && s != [] && t != []
    ensures Clean(u) && b == Under(a, u) && s == u + t
  {
    JoinedStart(a.parts);
    JoinNothing();
    assert b.parts != [];
    assert a.parts + s == b.parts + t && a.double == b.double;
    hide Render, Clean;
    if |a.parts| > |b.parts| {
      LongerParts(b.parts, t, a.parts, s);
      UnderIsLonger(b, a.parts[|b.parts|..]);
      assert false;
    }
    LongerParts(a.parts, s, b.parts, t);
    u := b.parts[|a.parts|..];
    PartsAreClean(b.parts, |a.parts|);
  }

  lemma LongerParts(a: seq<string>, s: seq<string>, b: seq<string>, t: seq<string>)
    requires a + s == b + t && |a| <= |b|
    ensures b == a + b[|a|..] && s == b[|a|..] + t
  {
    assert a == (a + s)[..|a|] && b == (a + s)[..|b|];
    assert s == (a + s)[|a|..];
  }

  /** A choice that still matches stays the choice when fewer routes match. */
  lemma {:induction false} FirstMatchNarrows(routes: seq<Route>, side: Side, wide: string, narrow: string)
    requires FirstMatch(routes, side, wide).Some?
    requires Matches(FirstMatch(routes, side, wide).value, side, narrow)
    requires forall r | r in routes :: Matches(r, side, narrow) ==> Matches(r, side, wide)
    ensures FirstMatch(routes, side, narrow) == FirstMatch(routes, side, wide)
  {
    hide Matches;
    var rest := routes[1..];
    assert routes == [routes[0]] + rest;
    if !Matches(routes[0], side, wide) {
      FirstMatchNarrows(rest, side, wide, narrow);
    }
  }

  /** The route chosen for a place is chosen for every place between its root and that place. */
  lemma ChoiceNarrows(routes: seq<Route>, side: Side, r: Route, a: seq<string>, b: seq<string>)
    requires RegularRoots(routes) && r in routes && Clean(a) && Clean(b)
    requires Choose(routes, side, Render(Under(Root(r, side), a + b))) == Some(r)
    ensures Choose(routes, side, Render(Under(Root(r, side), a))) == Some(r)
  {
    hide Normalize, Render, Matches;
    RootIsRegular(routes, r, side);
    var root := Root(r, side);
    UnderIsClean(root, a);
    UnderIsClean(root, a + b);
    UnderTwice(root, a, b);
    RegularMatch(r, side, Under(root, a));
    forall x | x in routes && Matches(x, side, Render(Under(root, a)))
      ensures Matches(x, side, Render(Under(root, a + b)))
    {
      RootIsRegular(routes, x, side);
      RegularMatch(x, side, Under(root, a));
      var s :| Clean(s) && Under(root, a) == Under(Root(x, side), s);
      UnderTwice(Root(x, side), s, b);
      assert Clean(s + b) && Under(root, a + b) == Under(Root(x, side), s + b);
      RegularMatch(x, side, Under(root, a + b));
    }
    hide Under, Clean;
    LongestFirstMembers(routes, side);
    FirstMatchNarrows(LongestFirst(routes, side), side, Render(Under(root, a + b)), Render(Under(root, a)));
  }

  /** Every path that has a route comes back from the container as itself. */
  ghost predicate RoundTrips(routes: seq<Route>) {
    forall path: string | Regular(Normalize(path)) ::
      Choose(routes, Agent, Render(Normalize(path))).Some? ==>
        ToAgentPath(routes, ToContainerPath(routes, path)) == Render(Normalize(path))
  }

  /**
   * Wherever one route's container root lies under another's, and neither is hidden there by a
   * third route, its agent root lies under the other's agent root by the same parts.
   */
  ghost predicate NestingAgrees(routes: seq<Route>) {
    forall a, b, s | a in routes && b in routes && Clean(s) ::
      Root(b, Container) == Under(Root(a, Container), s) &&
      Choose(routes, Agent, Render(Under(Root(a, Agent), s))) == Some(a) &&
      Choose(routes, Container, Render(Root(b, Container))) == Some(b) ==>
        Root(b, Agent) == Under(Root(a, Agent), s)
  }

  /** One path's way there and back. */
  lemma ThereAndBack(routes: seq<Route>, path: string, a: Route, suffix: seq<string>, b: Route, rest: seq<string>)
    requires RegularRoots(routes) && a in routes && b in routes && Clean(suffix) && Clean(rest)
    requires Normalize(path) == Under(Root(a, Agent), suffix) && Choose(routes, Agent, Render(Normalize(path))) == Some(a)
    requires Under(Root(a, Container), suffix) == Under(Root(b, Container), rest)
    requires Choose(routes, Container, Render(Under(Root(a, Container), suffix))) == Some(b)
    ensures ToAgentPath(routes, ToContainerPath(routes, path)) == Render(Under(Root(b, Agent), rest))
  {
    RootIsRegular(routes, a, Agent);
    RootIsRegular(routes, a, Container);
    RootIsRegular(routes, b, Agent);
    RootIsRegular(routes, b, Container);
    UnderIsClean(Root(a, Container), suffix);
    NormalizeRender(Under(Root(a, Container), suffix));
    UnderText(Root(a, Agent), suffix);
    UnderText(Root(b, Container), rest);
    hide Normalize, Render, Under, Clean, Choose, Matches, SuffixText, Join;
    TranslatedUnder(routes, Agent, Container, path, a, suffix);
    TranslatedUnder(routes, Container, Agent, ToContainerPath(routes, path), b, rest);
  }

  lemma AgreementGivesRoundTrips(routes: seq<Route>, path: string)
    requires RegularRoots(routes) && NestingAgrees(routes)
    requires Regular(Normalize(path))
    requires Choose(routes, Agent, Render(Normalize(path))).Some?
    ensures ToAgentPath(routes, ToContainerPath(routes, path)) == Render(Normalize(path))
  {
    hide Normalize, Render, Choose, Matches, RootLength, NestingAgrees;
    var a, suffix := ChosenRoute(routes, Agent, Normalize(path));
    RootIsRegular(routes, a, Container);
    UnderIsClean(Root(a, Container), suffix);
    hide Under, Clean;
    RouteIsFound(routes, Container, a, suffix);
    var b, rest := ChosenRoute(routes, Container, Under(Root(a, Container), suffix));
    ThereAndBack(routes, path, a, suffix, b, rest);
    LongerThanMatch(routes, Container, a, suffix, b);
    var between := RootsNest(Root(a, Container), suffix, Root(b, Container), rest);
    SameAgentPlace(routes, a, b, between, rest);
  }

  /** Where container roots nest, the agent roots do, so the agent places are the same. */
  lemma SameAgentPlace(routes: seq<Route>, a: Route, b: Route, between: seq<string>, rest: seq<string>)
    requires RegularRoots(routes) && NestingAgrees(routes) && Clean(between) && Clean(rest)
    requires a in routes && b in routes
    requires Root(b, Container) == Under(Root(a, Container), between)
    requires Choose(routes, Agent, Render(Under(Root(a, Agent), between + rest))) == Some(a)
    requires Choose(routes, Container, Render(Under(Root(b, Container), rest))) == Some(b)
    ensures Under(Root(b, Agent), rest) == Under(Root(a, Agent), between + rest)
  {
    hide Normalize, Render, Choose, Matches, Under, Clean;
    ChoiceNarrows(routes, Agent, a, between, rest);
    assert [] + rest == rest;
    UnderNothing(Root(b, Container));
    ChoiceNarrows(routes, Container, b, [], rest);
    assert Root(b, Agent) == Under(Root(a, Agent), between);
    RootIsRegular(routes, a, Agent);
    UnderTwice(Root(a, Agent), between, rest);
  }

  /** A place under a route's root has a route. */
  lemma RouteIsFound(routes: seq<Route>, side: Side, a: Route, suffix: seq<string>)
    requires RegularRoots(routes) && a in routes && Clean(suffix)
    ensures Choose(routes, side, Render(Under(Root(a, side), suffix))).Some?
  {
    hide Normalize, Render, Matches, RootLength, Choose;
    RootIsRegular(routes, a, side);
    UnderIsClean(Root(a, side), suffix);
    RegularMatch(a, side, Under(Root(a, side), suffix));
    ChoiceIsMostSpecific(routes, side, Render(Under(Root(a, side), suffix)));
  }

  lemma LongerThanMatch(routes: seq<Route>, side: Side, a: Route, suffix: seq<string>, b: Route)
    requires RegularRoots(routes) && a in routes && Clean(suffix)
    requires Choose(routes, side, Render(Under(Root(a, side), suffix))) == Some(b)
    ensures |Render(Root(a, side))| <= |Render(Root(b, side))|
  {
    hide Normalize, Render, Matches, Choose;
    RootIsRegular(routes, a, side);
    UnderIsClean(Root(a, side), suffix);
    RegularMatch(a, side, Under(Root(a, side), suffix));
    ChoiceIsMostSpecific(routes, side, Render(Under(Root(a, side), suffix)));
  }

  lemma RoundTripsGiveAgreement(routes: seq<Route>, a: Route, b: Route, s: seq<string>)
    requires RegularRoots(routes) && RoundTrips(routes)
    requires a in routes && b in routes && Clean(s)
    requires Root(b, Container) == Under(Root(a, Container), s)
    requires Choose(routes, Agent, Render(Under(Root(a, Agent), s))) == Some(a)
    requires Choose(routes, Container, Render(Root(b, Container))) == Some(b)
    ensures Root(b, Agent) == Under(Root(a, Agent), s)
  {
    RootIsRegular(routes, a, Agent);
    RootIsRegular(routes, b, Agent);
    UnderIsClean(Root(a, Agent), s);
    var l := Under(Root(a, Agent), s);
    NormalizeRender(l);
    NormalizeRender(Root(b, Agent));
    hide Normalize, Render, Choose, Matches;
    UnderNothing(Root(b, Container));
    UnderNothing(Root(b, Agent));
    hide Under, Clean;
    ThereAndBack(routes, Render(l), a, s, b, []);
  }

  /** Mapping to the container and back is the identity on every routed path exactly when the nesting agrees. */
  lemma RoundTripsExactlyWhenNestingAgrees(routes: seq<Route>)
    requires RegularRoots(routes)
    ensures RoundTrips(routes) <==> NestingAgrees(routes)
  {
    hide Normalize, Render, Choose, Matches, Under, Clean, ToAgentPath, ToContainerPath;
    if NestingAgrees(routes) {
      forall path: string | Regular(Normalize(path)) &&
                            Choose(routes, Agent, Render(Normalize(path))).Some?
        ensures ToAgentPath(routes, ToContainerPath(routes, path)) == Render(Normalize(path))
      {
        AgreementGivesRoundTrips(routes, path);
      }
    }
    if RoundTrips(routes) {
      forall a, b, s | a in routes && b in routes && Clean(s) &&
                       Root(b, Container) == Under(Root(a, Container), s) &&
                       Choose(routes, Agent, Render(Under(Root(a, Agent), s))) == Some(a) &&
                       Choose(routes, Container, Render(Root(b, Container))) == Some(b)
        ensures Root(b, Agent) == Under(Root(a, Agent), s)
      {
        RoundTripsGiveAgreement(routes, a, b, s);
      }
    }
  }
}
