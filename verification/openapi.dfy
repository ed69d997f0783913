/** The OpenAPI viewer helpers (src/lib/openapi/utils.ts): flattening a
    document's paths into endpoints, grouping endpoints by tag, ordering the
    groups, and the badge colours and title block of the viewer. */
module OpenApi {
  import opened Wrappers
  import opened OrderedMap

  // ---------------------------------------------------------------------------
  // Documents

  datatype HttpMethod = GET | POST | PUT | DELETE | PATCH | HEAD | OPTIONS | TRACE

  /** The fixed order in which the methods of a path are visited. */
  const HttpMethods: seq<HttpMethod> := [GET, POST, PUT, DELETE, PATCH, HEAD, OPTIONS, TRACE]

  function MethodName(m: HttpMethod): string {
    match m
    case GET => "get"
    case POST => "post"
    case PUT => "put"
    case DELETE => "delete"
    case PATCH => "patch"
    case HEAD => "head"
    case OPTIONS => "options"
    case TRACE => "trace"
  }

  /** The position of a method in `HttpMethods`. */
  function MethodIndex(m: HttpMethod): (k: nat)
    ensures k < |HttpMethods| && HttpMethods[k] == m
  {
    match m
    case GET => 0
    case POST => 1
    case PUT => 2
    case DELETE => 3
    case PATCH => 4
    case HEAD => 5
    case OPTIONS => 6
    case TRACE => 7
  }

  /** Every method is visited exactly once. */
  lemma MethodOrderIsPermutation()
    ensures forall i, j :: 0 <= i < j < |HttpMethods| ==> HttpMethods[i] != HttpMethods[j]
    ensures forall m :: m in HttpMethods
  {
    forall m ensures m in HttpMethods {
      assert HttpMethods[MethodIndex(m)] == m;
    }
  }

  datatype Operation = Operation(
    summary: Option<string>,
    description: Option<string>,
    tags: Option<seq<string>>,
    deprecated: Option<bool>,
    operationId: Option<string>)

  /** The operations of a path, by method. */
  type PathItem = map<HttpMethod, Operation>

  datatype Info = Info(title: Option<string>, version: Option<string>, description: Option<string>)

  datatype Tag = Tag(name: string, description: Option<string>)

  /** The parts of an OpenAPI document the viewer reads. `paths` lists the
      entries of the paths object in enumeration order; an entry whose path
      item is null or undefined is `None`. */
  datatype Document = Document(
    info: Option<Info>,
    paths: Option<seq<(string, Option<PathItem>)>>,
    tags: Option<seq<Tag>>)

  /** The keys of an object are distinct. */
  predicate WellFormed(doc: Document) {
    doc.paths.Some? ==> Distinct(Keys(doc.paths.value))
  }

  datatype Endpoint = Endpoint(
    id: string,
    verb: HttpMethod,
    path: string,
    summary: Option<string>,
    description: Option<string>,
    tags: seq<string>,
    deprecated: Option<bool>,
    operationId: Option<string>,
    operation: Operation)

  // ---------------------------------------------------------------------------
  // extractEndpoints

  /** The endpoint for one operation. */
  function MakeEndpoint(path: string, m: HttpMethod, op: Operation): (e: Endpoint)
    ensures e.id == MethodName(m) + "-" + path && e.verb == m && e.path == path
    ensures op.tags.Some? ==> e.tags == op.tags.value
    ensures op.tags.None? ==> e.tags == ["default"]
    ensures e.summary == op.summary && e.description == op.description
    ensures e.deprecated == op.deprecated && e.operationId == op.operationId && e.operation == op
  {
    Endpoint(MethodName(m) + "-" + path, m, path, op.summary, op.description,
             op.tags.GetOr(["default"]), op.deprecated, op.operationId, op)
  }

  /** The endpoints of one path for the methods HttpMethods[k..], in that
      order. */
  function MethodsFrom(path: string, item: PathItem, k: nat): (r: seq<Endpoint>)
    requires k <= |HttpMethods|
    ensures forall e :: e in r ==> e.path == path && k <= MethodIndex(e.verb)
    ensures forall i, j :: 0 <= i < j < |r| ==> MethodIndex(r[i].verb) < MethodIndex(r[j].verb)
    ensures forall e :: e in r <==> e.verb in item && k <= MethodIndex(e.verb) &&
                                     e == MakeEndpoint(path, e.verb, item[e.verb])
    decreases |HttpMethods| - k
  {
    if k == |HttpMethods| then []
    else
      var m := HttpMethods[k];
      var rest := MethodsFrom(path, item, k + 1);
      assert MethodIndex(m) == k;
      if m in item then
        var r := [MakeEndpoint(path, m, item[m])] + rest;
        assert forall e :: e in r <==> e == r[0] || e in rest;
        r
      else rest
  }

  /** The endpoints of one path entry: none when the path item is missing. */
  function EntryEndpoints(entry: (string, Option<PathItem>)): (r: seq<Endpoint>)
    ensures forall e :: e in r ==> e.path == entry.0
    ensures forall i, j :: 0 <= i < j < |r| ==> MethodIndex(r[i].verb) < MethodIndex(r[j].verb)
  {
    if entry.1.Some? then MethodsFrom(entry.0, entry.1.value, 0) else []
  }

  /** The endpoints of a list of path entries. */
  function PathsEndpoints(paths: seq<(string, Option<PathItem>)>): (r: seq<Endpoint>)
  {
    if paths == [] then [] else EntryEndpoints(paths[0]) + PathsEndpoints(paths[1..])
  }

  /** `extractEndpoints(spec)`. */
  function ExtractEndpoints(doc: Document): (r: seq<Endpoint>)
    ensures doc.paths.None? ==> r == []
  {
    PathsEndpoints(doc.paths.GetOr([]))
  }

  /** An endpoint is extracted exactly when some path entry has an operation
      for its method, and it is then built from that operation. */
  lemma {:induction false} PathsEndpointsMembers(paths: seq<(string, Option<PathItem>)>, e: Endpoint)
    ensures e in PathsEndpoints(paths) <==>
      exists i :: 0 <= i < |paths| && paths[i].0 == e.path && paths[i].1.Some? &&
                  e.verb in paths[i].1.value &&
                  e == MakeEndpoint(e.path, e.verb, paths[i].1.value[e.verb])
  {
    if paths != [] {
      PathsEndpointsMembers(paths[1..], e);
      var head := EntryEndpoints(paths[0]);
      assert PathsEndpoints(paths) == head + PathsEndpoints(paths[1..]);
      if e in PathsEndpoints(paths[1..]) {
        var i :| 0 <= i < |paths[1..]| && paths[1..][i].0 == e.path && paths[1..][i].1.Some? &&
                 e.verb in paths[1..][i].1.value &&
                 e == MakeEndpoint(e.path, e.verb, paths[1..][i].1.value[e.verb]);
        assert paths[i + 1] == paths[1..][i];
      }
      if exists i :: 0 <= i < |paths| && paths[i].0 == e.path && paths[i].1.Some? &&
                     e.verb in paths[i].1.value &&
                     e == MakeEndpoint(e.path, e.verb, paths[i].1.value[e.verb]) {
        var i :| 0 <= i < |paths| && paths[i].0 == e.path && paths[i].1.Some? &&
                 e.verb in paths[i].1.value &&
                 e == MakeEndpoint(e.path, e.verb, paths[i].1.value[e.verb]);
        if i > 0 {
          assert paths[1..][i - 1] == paths[i];
        }
      }
    }
  }

  /** The first position of a path among the entries. */
  function PathIndex(paths: seq<(string, Option<PathItem>)>, p: string): (k: nat)
    ensures k <= |paths|
    ensures k < |paths| ==> paths[k].0 == p
    ensures forall i :: 0 <= i < k ==> paths[i].0 != p
  {
    if paths == [] then 0
    else if paths[0].0 == p then 0
    else 1 + PathIndex(paths[1..], p)
  }

  /** Endpoint e1 comes before e2: an earlier path entry, or the same path
      and an earlier method. */
  predicate EmittedBefore(paths: seq<(string, Option<PathItem>)>, e1: Endpoint, e2: Endpoint) {
    var p1, p2 := PathIndex(paths, e1.path), PathIndex(paths, e2.path);
    p1 < p2 || (p1 == p2 && MethodIndex(e1.verb) < MethodIndex(e2.verb))
  }

  predicate InEmissionOrder(paths: seq<(string, Option<PathItem>)>, r: seq<Endpoint>) {
    forall i, j :: 0 <= i < j < |r| ==> EmittedBefore(paths, r[i], r[j])
  }

  lemma {:induction false} PathsEndpointsPaths(paths: seq<(string, Option<PathItem>)>)
    ensures forall e :: e in PathsEndpoints(paths) ==> e.path in Keys(paths)
  {
    if paths != [] {
      PathsEndpointsPaths(paths[1..]);
      assert Keys(paths) == [paths[0].0] + Keys(paths[1..]);
    }
  }

  /** Past the first entry, positions shift by one. */
  lemma PathIndexTail(paths: seq<(string, Option<PathItem>)>, p: string)
    requires Distinct(Keys(paths)) && paths != [] && p in Keys(paths[1..])
    ensures PathIndex(paths, p) == 1 + PathIndex(paths[1..], p)
  {
    var k :| 0 <= k < |paths[1..]| && Keys(paths[1..])[k] == p;
    assert Keys(paths)[0] != Keys(paths)[k + 1];
  }

  /** Endpoints come out path by path in entry order, and within a path in
      the fixed method order. */
  lemma {:induction false} PathsEndpointsOrdered(paths: seq<(string, Option<PathItem>)>)
    requires Distinct(Keys(paths))
    ensures InEmissionOrder(paths, PathsEndpoints(paths))
  {
    if paths != [] {
      var tail := paths[1..];
      assert Distinct(Keys(tail)) by {
        forall a, b | 0 <= a < b < |tail| ensures Keys(tail)[a] != Keys(tail)[b] {
          assert Keys(paths)[a + 1] != Keys(paths)[b + 1];
        }
      }
      PathsEndpointsOrdered(tail);
      PathsEndpointsPaths(tail);
      var head := EntryEndpoints(paths[0]);
      var rest := PathsEndpoints(tail);
      assert PathsEndpoints(paths) == head + rest;
      OrderedConcat(paths, head, rest);
    }
  }

  lemma OrderedConcat(paths: seq<(string, Option<PathItem>)>, head: seq<Endpoint>, rest: seq<Endpoint>)
    requires Distinct(Keys(paths)) && paths != []
    requires forall e :: e in head ==> e.path == paths[0].0
    requires forall i, j :: 0 <= i < j < |head| ==> MethodIndex(head[i].verb) < MethodIndex(head[j].verb)
    requires forall e :: e in rest ==> e.path in Keys(paths[1..])
    requires InEmissionOrder(paths[1..], rest)
    ensures InEmissionOrder(paths, head + rest)
  {
    var r := head + rest;
    forall i, j | 0 <= i < j < |r| ensures EmittedBefore(paths, r[i], r[j]) {
      if j < |head| {
        assert r[i] == head[i] && r[j] == head[j];
      } else if i < |head| {
        assert r[i] == head[i] && r[j] == rest[j - |head|];
        assert head[i] in head && rest[j - |head|] in rest;
        PathIndexTail(paths, rest[j - |head|].path);
      } else {
        assert r[i] == rest[i - |head|] && r[j] == rest[j - |head|];
        assert rest[i - |head|] in rest && rest[j - |head|] in rest;
        PathIndexTail(paths, rest[i - |head|].path);
        PathIndexTail(paths, rest[j - |head|].path);
      }
    }
  }

  /** The endpoints of a well-formed document are ordered as emitted. */
  lemma ExtractEndpointsOrdered(doc: Document)
    requires WellFormed(doc)
    ensures InEmissionOrder(doc.paths.GetOr([]), ExtractEndpoints(doc))
  {
    var paths := doc.paths.GetOr([]);
    assert Distinct(Keys(paths));
    PathsEndpointsOrdered(paths);
    assert ExtractEndpoints(doc) == PathsEndpoints(paths);
  }

  // ---------------------------------------------------------------------------
  // groupEndpointsByTag

  /** The tag map: tag to the endpoints listing it, keys in order of first
      appearance. */
  type TagMap = seq<(string, seq<Endpoint>)>

  function CountOf(tags: seq<string>, t: string): nat {
    if tags == [] then 0 else (if tags[0] == t then 1 else 0) + CountOf(tags[1..], t)
  }

  function Copies(e: Endpoint, n: nat): (r: seq<Endpoint>)
    ensures |r| == n && forall x :: x in r ==> x == e
  {
    if n == 0 then [] else [e] + Copies(e, n - 1)
  }

  /** Reference grouping: the endpoints of tag t in input order, each as
      many times as it lists t. */
  function Select(eps: seq<Endpoint>, t: string): seq<Endpoint> {
    if eps == [] then [] else Copies(eps[0], CountOf(eps[0].tags, t)) + Select(eps[1..], t)
  }

  /** The inner loop: push e onto the list of each of its tags. */
  function AddToTags(m: TagMap, e: Endpoint, tags: seq<string>): TagMap
    decreases |tags|
  {
    if tags == [] then m
    else AddToTags(Set(m, tags[0], Get(m, tags[0]).GetOr([]) + [e]), e, tags[1..])
  }

  /** The outer loop over the endpoints. */
  function GroupAll(m: TagMap, eps: seq<Endpoint>): TagMap
    decreases |eps|
  {
    if eps == [] then m else GroupAll(AddToTags(m, eps[0], eps[0].tags), eps[1..])
  }

  lemma {:induction false} AddToTagsGet(m: TagMap, e: Endpoint, tags: seq<string>, t: string)
    ensures Get(AddToTags(m, e, tags), t).GetOr([]) == Get(m, t).GetOr([]) + Copies(e, CountOf(tags, t))
    decreases |tags|
  {
    if tags != [] {
      var m' := Set(m, tags[0], Get(m, tags[0]).GetOr([]) + [e]);
      AddToTagsGet(m', e, tags[1..], t);
      if t == tags[0] {
        assert Get(m', t).GetOr([]) == Get(m, t).GetOr([]) + [e];
        assert Copies(e, CountOf(tags, t)) == [e] + Copies(e, CountOf(tags[1..], t));
      } else {
        assert Get(m', t) == Get(m, t);
      }
    }
  }

  lemma {:induction false} AddToTagsHas(m: TagMap, e: Endpoint, tags: seq<string>, t: string)
    ensures Has(AddToTags(m, e, tags), t) <==> Has(m, t) || t in tags
    decreases |tags|
  {
    if tags != [] {
      var m' := Set(m, tags[0], Get(m, tags[0]).GetOr([]) + [e]);
      AddToTagsHas(m', e, tags[1..], t);
      assert t in tags <==> t == tags[0] || t in tags[1..];
      assert Get(m', t).Some? <==> Has(m', t);
      assert t != tags[0] ==> Get(m', t) == Get(m, t);
    }
  }

  lemma {:induction false} AddToTagsValid(m: TagMap, e: Endpoint, tags: seq<string>)
    requires Valid(m)
    ensures Valid(AddToTags(m, e, tags))
    decreases |tags|
  {
    if tags != [] {
      SetValid(m, tags[0], Get(m, tags[0]).GetOr([]) + [e]);
      AddToTagsValid(Set(m, tags[0], Get(m, tags[0]).GetOr([]) + [e]), e, tags[1..]);
    }
  }

  predicate Listed(eps: seq<Endpoint>, t: string) {
    exists i :: 0 <= i < |eps| && t in eps[i].tags
  }

  lemma {:induction false} GroupAllValid(m: TagMap, eps: seq<Endpoint>)
    requires Valid(m)
    ensures Valid(GroupAll(m, eps))
    decreases |eps|
  {
    if eps != [] {
      AddToTagsValid(m, eps[0], eps[0].tags);
      GroupAllValid(AddToTags(m, eps[0], eps[0].tags), eps[1..]);
    }
  }

  lemma {:induction false} GroupAllGet(m: TagMap, eps: seq<Endpoint>, t: string)
    ensures Get(GroupAll(m, eps), t).GetOr([]) == Get(m, t).GetOr([]) + Select(eps, t)
    decreases |eps|
  {
    if eps != [] {
      AddToTagsGet(m, eps[0], eps[0].tags, t);
      GroupAllGet(AddToTags(m, eps[0], eps[0].tags), eps[1..], t);
    }
  }

  lemma {:induction false} GroupAllHas(m: TagMap, eps: seq<Endpoint>, t: string)
    ensures Has(GroupAll(m, eps), t) <==> Has(m, t) || Listed(eps, t)
    decreases |eps|
  {
    if eps != [] {
      AddToTagsHas(m, eps[0], eps[0].tags, t);
      GroupAllHas(AddToTags(m, eps[0], eps[0].tags), eps[1..], t);
      ListedCons(eps, t);
    }
  }

  lemma ListedCons(eps: seq<Endpoint>, t: string)
    requires eps != []
    ensures Listed(eps, t) <==> t in eps[0].tags || Listed(eps[1..], t)
  {
    if Listed(eps[1..], t) {
      var i :| 0 <= i < |eps[1..]| && t in eps[1..][i].tags;
      assert eps[i + 1] == eps[1..][i];
    }
    if Listed(eps, t) && t !in eps[0].tags {
      var i :| 0 <= i < |eps| && t in eps[i].tags;
      assert eps[1..][i - 1] == eps[i];
    }
  }

  /** A tag that some endpoint lists has a non-empty group. */
  lemma {:induction false} SelectNonEmpty(eps: seq<Endpoint>, t: string)
    ensures Select(eps, t) != [] <==> Listed(eps, t)
  {
    if eps != [] {
      SelectNonEmpty(eps[1..], t);
      CountPositive(eps[0].tags, t);
      ListedCons(eps, t);
    }
  }

  /** Each endpoint is in the group of every tag it lists. */
  lemma {:induction false} SelectContains(eps: seq<Endpoint>, i: nat, t: string)
    requires i < |eps| && t in eps[i].tags
    ensures eps[i] in Select(eps, t)
  {
    if i == 0 {
      CountPositive(eps[0].tags, t);
      assert Copies(eps[0], CountOf(eps[0].tags, t))[0] == eps[0];
    } else {
      SelectContains(eps[1..], i - 1, t);
    }
  }

  lemma {:induction false} CountPositive(tags: seq<string>, t: string)
    ensures CountOf(tags, t) > 0 <==> t in tags
  {
    if tags != [] {
      CountPositive(tags[1..], t);
      assert t in tags <==> t == tags[0] || t in tags[1..];
    }
  }

  /** The description map: tag name to description, the last entry of a
      name winning; tags with an empty name are skipped. */
  function DescriptionMap(tags: seq<Tag>): (m: seq<(string, string)>)
  {
    if tags == [] then []
    else
      var m := DescriptionMap(tags[..|tags| - 1]);
      var tag := tags[|tags| - 1];
      if tag.name != [] then Set(m, tag.name, tag.description.GetOr("")) else m
  }

  /** Reference: the description of the last tag named n, or none. */
  function LastDescription(tags: seq<Tag>, n: string): Option<string> {
    if tags == [] then None
    else if tags[|tags| - 1].name == n then Some(tags[|tags| - 1].description.GetOr(""))
    else LastDescription(tags[..|tags| - 1], n)
  }

  lemma {:induction false} DescriptionMapGet(tags: seq<Tag>, n: string)
    requires n != []
    ensures Get(DescriptionMap(tags), n) == LastDescription(tags, n)
  {
    if tags != [] {
      DescriptionMapGet(tags[..|tags| - 1], n);
    }
  }

  datatype EndpointGroup = EndpointGroup(tag: string, description: Option<string>, endpoints: seq<Endpoint>)

  /** One group per tag-map entry, in map order. */
  function ToGroups(m: TagMap, descriptions: seq<(string, string)>): (gs: seq<EndpointGroup>)
    ensures |gs| == |m|
    ensures forall i :: 0 <= i < |m| ==>
      gs[i] == EndpointGroup(m[i].0, Get(descriptions, m[i].0), m[i].1)
  {
    if m == [] then []
    else [EndpointGroup(m[0].0, Get(descriptions, m[0].0), m[0].1)] + ToGroups(m[1..], descriptions)
  }

  /** `localeCompare` is abstracted as a strict total order on tags. */
  ghost predicate StrictTotalOrder(lt: (string, string) -> bool) {
    (forall a :: !lt(a, a)) &&
    (forall a, b, c :: lt(a, b) && lt(b, c) ==> lt(a, c)) &&
    (forall a, b :: a != b ==> lt(a, b) || lt(b, a))
  }

  /** The sort comparator: `'default'` after everything else, the rest by
      `localeCompare`. */
  predicate Before(lt: (string, string) -> bool, a: string, b: string) {
    if a == "default" then false
    else if b == "default" then true
    else lt(a, b)
  }

  lemma BeforeIsStrictTotalOrder(lt: (string, string) -> bool, a: string, b: string, c: string)
    requires StrictTotalOrder(lt)
    ensures !Before(lt, a, a)
    ensures Before(lt, a, b) && Before(lt, b, c) ==> Before(lt, a, c)
    ensures a != b ==> Before(lt, a, b) || Before(lt, b, a)
    ensures Before(lt, a, b) ==> !Before(lt, b, a)
  {
  }

  predicate SortedGroups(lt: (string, string) -> bool, gs: seq<EndpointGroup>) {
    forall i, j :: 0 <= i < j < |gs| ==> Before(lt, gs[i].tag, gs[j].tag)
  }

  function Insert(lt: (string, string) -> bool, g: EndpointGroup, gs: seq<EndpointGroup>): (r: seq<EndpointGroup>)
    ensures multiset(r) == multiset(gs) + multiset{g}
  {
    if gs == [] then [g]
    else if Before(lt, g.tag, gs[0].tag) then [g] + gs
    else
      assert gs == [gs[0]] + gs[1..];
      [gs[0]] + Insert(lt, g, gs[1..])
  }

  /** `groups.sort(...)`: tags are distinct, so the comparator orders them
      totally and the result does not depend on the sorting algorithm; it is
      written here as an insertion sort. */
  function SortGroups(lt: (string, string) -> bool, gs: seq<EndpointGroup>): (r: seq<EndpointGroup>)
    ensures multiset(r) == multiset(gs)
  {
    if gs == [] then []
    else
      assert gs == [gs[0]] + gs[1..];
      Insert(lt, gs[0], SortGroups(lt, gs[1..]))
  }

  lemma {:induction false} InsertSorted(lt: (string, string) -> bool, g: EndpointGroup, gs: seq<EndpointGroup>)
    requires StrictTotalOrder(lt)
    requires SortedGroups(lt, gs)
    requires forall x :: x in gs ==> x.tag != g.tag
    ensures SortedGroups(lt, Insert(lt, g, gs))
  {
    if gs != [] && !Before(lt, g.tag, gs[0].tag) {
      BeforeIsStrictTotalOrder(lt, g.tag, gs[0].tag, gs[0].tag);
      InsertSorted(lt, g, gs[1..]);
      var r := Insert(lt, g, gs);
      var rest := Insert(lt, g, gs[1..]);
      assert r == [gs[0]] + rest;
      forall j | 1 <= j < |r| ensures Before(lt, gs[0].tag, r[j].tag) {
        assert r[j] in multiset(rest);
        assert r[j] in multiset(gs[1..]) + multiset{g};
        if r[j] != g {
          assert r[j] in gs[1..];
          var k :| 0 <= k < |gs[1..]| && gs[1..][k] == r[j];
          assert gs[k + 1] == r[j];
        }
      }
    } else if gs != [] {
      var r := [g] + gs;
      forall j | 1 <= j < |r| ensures Before(lt, g.tag, r[j].tag) {
        BeforeIsStrictTotalOrder(lt, g.tag, gs[0].tag, r[j].tag);
        if j > 1 {
          assert Before(lt, gs[0].tag, gs[j - 1].tag);
        }
      }
    }
  }

  predicate DistinctTags(gs: seq<EndpointGroup>) {
    forall i, j :: 0 <= i < j < |gs| ==> gs[i].tag != gs[j].tag
  }

  lemma {:induction false} SortGroupsSorted(lt: (string, string) -> bool, gs: seq<EndpointGroup>)
    requires StrictTotalOrder(lt)
    requires DistinctTags(gs)
    ensures SortedGroups(lt, SortGroups(lt, gs))
  {
    if gs != [] {
      assert DistinctTags(gs[1..]) by {
        forall a, b | 0 <= a < b < |gs[1..]| ensures gs[1..][a].tag != gs[1..][b].tag {
          assert gs[a + 1].tag != gs[b + 1].tag;
        }
      }
      SortGroupsSorted(lt, gs[1..]);
      var s := SortGroups(lt, gs[1..]);
      forall x | x in s ensures x.tag != gs[0].tag {
        assert x in multiset(gs[1..]);
        var k :| 0 <= k < |gs[1..]| && gs[1..][k] == x;
        assert gs[k + 1] == x;
      }
      InsertSorted(lt, gs[0], s);
    }
  }

  /** `groupEndpointsByTag(endpoints, spec)`. */
  function GroupEndpointsByTag(lt: (string, string) -> bool, eps: seq<Endpoint>, doc: Document): seq<EndpointGroup> {
    var tagMap := GroupAll([], eps);
    SortGroups(lt, ToGroups(tagMap, DescriptionMap(doc.tags.GetOr([]))))
  }

  /** Group g holds the endpoints listing its tag, in input order, and the
      description given for that tag name. */
  predicate GroupOf(eps: seq<Endpoint>, doc: Document, g: EndpointGroup) {
    g.endpoints == Select(eps, g.tag) && g.endpoints != [] &&
    g.description == (if g.tag == [] then None else LastDescription(doc.tags.GetOr([]), g.tag))
  }

  predicate HasGroup(gs: seq<EndpointGroup>, t: string) {
    exists g :: g in gs && g.tag == t
  }

  /** The groups before sorting: one per listed tag, in order of first
      appearance. */
  lemma UnsortedGroups(eps: seq<Endpoint>, doc: Document)
    ensures var gs := ToGroups(GroupAll([], eps), DescriptionMap(doc.tags.GetOr([])));
      DistinctTags(gs) &&
      (forall g :: g in gs ==> GroupOf(eps, doc, g)) &&
      (forall t :: HasGroup(gs, t) <==> Listed(eps, t))
  {
    UnsortedDistinct(eps, doc);
    UnsortedExact(eps, doc);
    UnsortedTags(eps, doc);
  }

  lemma UnsortedDistinct(eps: seq<Endpoint>, doc: Document)
    ensures DistinctTags(ToGroups(GroupAll([], eps), DescriptionMap(doc.tags.GetOr([]))))
  {
    var tagMap := GroupAll([], eps);
    var unsorted := ToGroups(tagMap, DescriptionMap(doc.tags.GetOr([])));
    GroupAllValid([], eps);
    forall i, j | 0 <= i < j < |unsorted| ensures unsorted[i].tag != unsorted[j].tag {
      assert Keys(tagMap)[i] != Keys(tagMap)[j];
    }
  }

  lemma UnsortedExact(eps: seq<Endpoint>, doc: Document)
    ensures forall g :: g in ToGroups(GroupAll([], eps), DescriptionMap(doc.tags.GetOr([]))) ==>
      GroupOf(eps, doc, g)
  {
    var tagMap := GroupAll([], eps);
    var unsorted := ToGroups(tagMap, DescriptionMap(doc.tags.GetOr([])));
    GroupAllValid([], eps);
    forall g | g in unsorted ensures GroupOf(eps, doc, g) {
      var i :| 0 <= i < |unsorted| && unsorted[i] == g;
      GetAt(tagMap, i);
      GroupAllGet([], eps, g.tag);
      GroupAllHas([], eps, g.tag);
      SelectNonEmpty(eps, g.tag);
      if g.tag != [] {
        DescriptionMapGet(doc.tags.GetOr([]), g.tag);
      } else {
        DescriptionMapNoEmpty(doc.tags.GetOr([]));
      }
    }
  }

  lemma UnsortedTags(eps: seq<Endpoint>, doc: Document)
    ensures var gs := ToGroups(GroupAll([], eps), DescriptionMap(doc.tags.GetOr([])));
      forall t :: HasGroup(gs, t) <==> Listed(eps, t)
  {
    var tagMap := GroupAll([], eps);
    var unsorted := ToGroups(tagMap, DescriptionMap(doc.tags.GetOr([])));
    forall t ensures HasGroup(unsorted, t) <==> Listed(eps, t) {
      GroupAllHas([], eps, t);
      if Listed(eps, t) {
        var k :| 0 <= k < |Keys(tagMap)| && Keys(tagMap)[k] == t;
        assert unsorted[k] in unsorted;
      }
      if HasGroup(unsorted, t) {
        var g :| g in unsorted && g.tag == t;
        var i :| 0 <= i < |unsorted| && unsorted[i] == g;
        assert Keys(tagMap)[i] == t;
      }
    }
  }

  /** Sorting keeps the same groups. */
  lemma SortKeepsGroups(lt: (string, string) -> bool, gs: seq<EndpointGroup>)
    ensures forall g :: g in SortGroups(lt, gs) <==> g in gs
  {
    var r := SortGroups(lt, gs);
    forall g ensures g in r <==> g in gs {
      assert g in r <==> g in multiset(r);
      assert g in gs <==> g in multiset(gs);
    }
  }

  /** One group per listed tag, holding that tag's endpoints in input order
      and the tag's description; groups are sorted with `'default'` last. */
  lemma GroupEndpointsByTagSpec(lt: (string, string) -> bool, eps: seq<Endpoint>, doc: Document)
    requires StrictTotalOrder(lt)
    ensures var gs := GroupEndpointsByTag(lt, eps, doc);
      DistinctTags(gs) && SortedGroups(lt, gs) &&
      (forall g :: g in gs ==> GroupOf(eps, doc, g)) &&
      (forall t :: HasGroup(gs, t) <==> Listed(eps, t))
  {
    var unsorted := ToGroups(GroupAll([], eps), DescriptionMap(doc.tags.GetOr([])));
    var gs := SortGroups(lt, unsorted);
    UnsortedGroups(eps, doc);
    SortGroupsSorted(lt, unsorted);
    SortKeepsGroups(lt, unsorted);
    assert DistinctTags(gs) by {
      forall i, j | 0 <= i < j < |gs| ensures gs[i].tag != gs[j].tag {
        BeforeIsStrictTotalOrder(lt, gs[i].tag, gs[j].tag, gs[j].tag);
      }
    }
    forall t ensures HasGroup(gs, t) <==> HasGroup(unsorted, t) {
      if HasGroup(unsorted, t) {
        var g :| g in unsorted && g.tag == t;
        assert g in gs;
      }
    }
  }

  lemma {:induction false} DescriptionMapNoEmpty(tags: seq<Tag>)
    ensures !Has(DescriptionMap(tags), [])
  {
    if tags != [] {
      DescriptionMapNoEmpty(tags[..|tags| - 1]);
    }
  }

  /** The `'default'` group, when there is one, is the last group. */
  lemma DefaultGroupLast(lt: (string, string) -> bool, eps: seq<Endpoint>, doc: Document)
    requires StrictTotalOrder(lt)
    ensures var gs := GroupEndpointsByTag(lt, eps, doc);
      forall i :: 0 <= i < |gs| && gs[i].tag == "default" ==> i == |gs| - 1
  {
    GroupEndpointsByTagSpec(lt, eps, doc);
    var gs := GroupEndpointsByTag(lt, eps, doc);
    forall i | 0 <= i < |gs| - 1 ensures gs[i].tag != "default" {
      assert Before(lt, gs[i].tag, gs[i + 1].tag);
    }
  }

  // ---------------------------------------------------------------------------
  // Badge colours and the title block

  /** `getMethodColor(method)`. */
  function MethodColor(m: HttpMethod): (c: string)
    ensures c == "text-text-muted" <==> m in {HEAD, OPTIONS, TRACE}
  {
    match m
    case GET => "text-positive"
    case POST => "text-info"
    case PUT => "text-warning"
    case DELETE => "text-negative"
    case PATCH => "text-accent-brand"
    case _ => "text-text-muted"
  }

  /** `getMethodBgColor(method)`. */
  function MethodBgColor(m: HttpMethod): (c: string)
    ensures c == "bg-bg-tertiary" <==> m in {HEAD, OPTIONS, TRACE}
  {
    match m
    case GET => "bg-positive-muted"
    case POST => "bg-info-muted"
    case PUT => "bg-warning-muted"
    case DELETE => "bg-negative-muted"
    case PATCH => "bg-accent-brand-muted"
    case _ => "bg-bg-tertiary"
  }

  /** The five common methods get five different colours, both for text and
      for badge backgrounds. */
  lemma ColoursDistinguishCommonMethods(m1: HttpMethod, m2: HttpMethod)
    requires m1 in {GET, POST, PUT, DELETE, PATCH} && m2 in {GET, POST, PUT, DELETE, PATCH}
    ensures MethodColor(m1) == MethodColor(m2) <==> m1 == m2
    ensures MethodBgColor(m1) == MethodBgColor(m2) <==> m1 == m2
  {
  }

  /** The two switches share their case structure: two methods get the same
      text colour exactly when they get the same badge background. */
  lemma ColourTablesAgree(m1: HttpMethod, m2: HttpMethod)
    ensures MethodColor(m1) == MethodColor(m2) <==> MethodBgColor(m1) == MethodBgColor(m2)
  {
  }

  datatype ApiInfo = ApiInfo(title: string, version: string, description: Option<string>)

  /** `getApiInfo(spec)`: `??` replaces only missing values, so an empty
      title is kept. */
  function GetApiInfo(doc: Document): (r: ApiInfo)
    ensures doc.info.None? ==> r == ApiInfo("API Documentation", "1.0.0", None)
    ensures doc.info.Some? && doc.info.value.title.Some? ==> r.title == doc.info.value.title.value
    ensures doc.info.Some? && doc.info.value.title.None? ==> r.title == "API Documentation"
    ensures doc.info.Some? && doc.info.value.version.Some? ==> r.version == doc.info.value.version.value
    ensures doc.info.Some? && doc.info.value.version.None? ==> r.version == "1.0.0"
    ensures r.description == if doc.info.Some? then doc.info.value.description else None
  {
    match doc.info
    case None => ApiInfo("API Documentation", "1.0.0", None)
    case Some(info) => ApiInfo(info.title.GetOr("API Documentation"), info.version.GetOr("1.0.0"), info.description)
  }
}
