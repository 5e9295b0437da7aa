/**
 The parser of contrib/cJSON/cJSON.c as it works: items are taken from the pool and linked
 one by one. What it reads is what module Json says, and what it has linked so far is a
 forest of distinct live items at every point, so that cJSON_Delete can free it.
 */
module JsonParser {
  import opened IntrusiveList
  import opened Common
  import opened Decimals
  import opened Json
  import JsonLayout
  import opened JsonText
  import opened JsonPool

  // ---------------------------------------------------------------- what linked items stand for

  function ItemValue(n: Node, kids: Kids): Value {
    match n.kind
    case NullItem => Null
    case FalseItem => False
    case TrueItem => True
    case NumberItem => Number(n.valueint, n.valuedouble)
    case StringItem => String(if n.valuestring.Some? then n.valuestring.value else [])
    case ArrayItem => Array(kids)
    case ObjectItem => Object(kids)
  }

  function ToKids(nodes: map<Id, Node>, f: Forest): Kids {
    match f
    case Nil => End
    case More(id, kids, rest) =>
      if id in nodes then Kid(nodes[id].name, ItemValue(nodes[id], ToKids(nodes, kids)), ToKids(nodes, rest)) else End
  }

  lemma {:induction false} ToKidsFrame(nodes: map<Id, Node>, nodes': map<Id, Node>, f: Forest)
    requires forall x :: x in Order(f) ==> x in nodes && x in nodes' && nodes'[x] == nodes[x]
    ensures ToKids(nodes', f) == ToKids(nodes, f)
  {
    if f.More? {
      FirstIn(f);
      ToKidsFrame(nodes, nodes', f.kids);
      ToKidsFrame(nodes, nodes', f.rest);
    }
  }

  /** The last of the siblings. */
  function LastOf(f: Forest): Option<Id> {
    if f.Nil? then None else if f.rest.Nil? then Some(f.id) else LastOf(f.rest)
  }

  lemma {:induction false} LastJoined(f: Forest, child: Id, sub: Forest)
    ensures LastOf(Join(f, More(child, sub, Nil))) == Some(child)
  {
    if f.More? {
      LastJoined(f.rest, child, sub);
    }
  }

  /** One list of siblings behind another. */
  function Join(f: Forest, g: Forest): Forest {
    if f.Nil? then g else More(f.id, f.kids, Join(f.rest, g))
  }

  function JoinKids(a: Kids, b: Kids): Kids {
    if a.End? then b else Kid(a.name, a.value, JoinKids(a.next, b))
  }

  lemma {:induction false} JoinChain(nodes: map<Id, Node>, c: Option<Id>, f: Forest, mid: Option<Id>, g: Forest,
      end: Option<Id>)
    requires Chain(nodes, c, f, mid) && Chain(nodes, mid, g, end) && (f.More? ==> PointsBack(nodes, g, LastOf(f)))
    ensures Chain(nodes, c, Join(f, g), end)
    ensures ToKids(nodes, Join(f, g)) == JoinKids(ToKids(nodes, f), ToKids(nodes, g))
    decreases f
  {
    hide ItemValue;
    if f.More? {
      JoinChain(nodes, nodes[f.id].next, f.rest, mid, g, end);
    }
  }

  lemma {:induction false} JoinOrder(f: Forest, g: Forest)
    ensures Order(Join(f, g)) == Order(f) + Order(g)
  {
    if f.Nil? {
      assert [] + Order(g) == Order(g);
    } else {
      JoinOrder(f.rest, g);
      assert Order(f.kids) + [f.id] + (Order(f.rest) + Order(g)) == Order(f.kids) + [f.id] + Order(f.rest) + Order(g);
    }
  }

  /** Links are not part of the value. */
  lemma LinkedValue(n: Node, x: Option<Id>, kids: Kids)
    ensures ItemValue(n.(next := x), kids) == ItemValue(n, kids)
  {
  }

  // ---------------------------------------------------------------- lists of children, named or not

  /** One child with its name. */
  function ParseOne(named: bool, s: string): (r: Parsed<(Option<string>, Value)>)
    ensures r.Ok? ==> |r.rest| < |s|
  {
    if named then
      match ParseName(s)
      case Ok(name, s1) => WithName(Some(name), ParseValue(Skip(s1)))
      case Fail => Fail
      case Unmodelled => Unmodelled
    else WithName(None, ParseValue(Skip(s)))
  }

  function WithName(name: Option<string>, p: Parsed<Value>): Parsed<(Option<string>, Value)> {
    match p
    case Ok(v, rest) => Ok((name, v), rest)
    case Fail => Fail
    case Unmodelled => Unmodelled
  }

  const CLOSE_ARRAY := ']'
  const CLOSE_OBJECT := '}'

  /** What follows a child: a comma and more of them, or the end of the list. */
  function Continue(named: bool, name: Option<string>, v: Value, s: string): Parsed<Kids> {
    if Head(s) == ',' then Onto(name, v, ParseList(named, s[1..]))
    else if Head(s) == (if named then CLOSE_OBJECT else CLOSE_ARRAY) then Ok(Kid(name, v, End), s[1..])
    else Fail
  }

  lemma ListStep(named: bool, s: string)
    ensures ParseList(named, s) == match ParseOne(named, s)
              case Ok(p, rest) => Continue(named, p.0, p.1, Skip(rest))
              case Fail => Fail
              case Unmodelled => Unmodelled
  {
    hide ParseValue, ParseName, Skip;
  }

  function Behind(done: Kids, p: Parsed<Kids>): Parsed<Kids> {
    if p.Ok? then Ok(JoinKids(done, p.value), p.rest) else p
  }

  lemma {:induction false} BehindOne(done: Kids, name: Option<string>, v: Value, p: Parsed<Kids>)
    ensures Behind(done, Onto(name, v, p)) == Behind(JoinKids(done, Kid(name, v, End)), p)
  {
    if p.Ok? {
      JoinAssoc(done, Kid(name, v, End), p.value);
    }
  }

  lemma {:induction false} JoinAssoc(a: Kids, b: Kids, c: Kids)
    ensures JoinKids(a, JoinKids(b, c)) == JoinKids(JoinKids(a, b), c)
  {
    if a.Kid? {
      JoinAssoc(a.next, b, c);
    }
  }

  // ---------------------------------------------------------------- contracts

  /** `was` has become `now` by handing out exactly the given items, each once. */
  ghost predicate Handed(was: set<Id>, now: set<Id>, ids: seq<Id>) {
    NoDup(ids) && (forall x :: x in ids ==> x !in was) && now == was + IdSet(ids)
  }

  ghost predicate Agrees<T, U>(r: Parsed<T>, spec: Parsed<U>) {
    match spec
    case Ok(_, rest) => r.Ok? && r.rest == rest
    case Fail => r.Fail?
    case Unmodelled => r.Unmodelled?
  }

  /** An item with its children below it and nothing behind it. */
  ghost predicate Hangs(nodes: map<Id, Node>, item: Id, kids: Forest) {
    item in nodes && nodes[item].next == None && Chain(nodes, nodes[item].child, kids, None)
      && PointsBack(nodes, kids, None)
  }

  ghost predicate Childless(pool: Pool, item: Id)
    reads pool
  {
    pool.Valid() && !pool.destroyed && item in pool.live && Hangs(pool.nodes, item, Nil)
  }

  // ---------------------------------------------------------------- a growing list of children

  /** The finished children `f`, then the one being read with its own children `sub`. */
  ghost predicate Family(nodes: map<Id, Node>, first: Option<Id>, f: Forest, child: Id, sub: Forest) {
    Chain(nodes, first, f, Some(child)) && Hangs(nodes, child, sub) && PointsBack(nodes, f, None)
      && nodes[child].prev == LastOf(f)
  }

  function All(f: Forest, child: Id, sub: Forest): seq<Id> {
    Order(f) + (Order(sub) + [child])
  }

  function Last(nodes: map<Id, Node>, child: Id, sub: Forest): Kids
    requires child in nodes
  {
    Kid(nodes[child].name, ItemValue(nodes[child], ToKids(nodes, sub)), End)
  }

  lemma FamilyForest(nodes: map<Id, Node>, first: Option<Id>, f: Forest, child: Id, sub: Forest)
    requires Family(nodes, first, f, child, sub)
    ensures var g := Join(f, More(child, sub, Nil));
            && Chain(nodes, first, g, None) && PointsBack(nodes, g, None) && Order(g) == All(f, child, sub)
            && ToKids(nodes, g) == JoinKids(ToKids(nodes, f), Last(nodes, child, sub))
  {
    var g := More(child, sub, Nil);
    JoinChain(nodes, first, f, Some(child), g, None);
    JoinOrder(f, g);
    assert Order(g) == Order(sub) + [child] + Order(Nil);
  }

  /** A new child is linked behind the last one. */
  lemma FamilyGrows(nodes: map<Id, Node>, nodes': map<Id, Node>, first: Option<Id>, f: Forest, child: Id, sub: Forest,
      added: Id, sub': Forest)
    requires Family(nodes, first, f, child, sub) && NoDup(All(f, child, sub))
    requires Hangs(nodes', added, sub') && nodes'[added].prev == Some(child)
    requires child in nodes' && nodes'[child] == nodes[child].(next := Some(added))
    requires forall x :: x in All(f, child, sub) && x != child ==> x in nodes && x in nodes' && nodes'[x] == nodes[x]
    ensures var g := Join(f, More(child, sub, Nil));
            && Family(nodes', first, g, added, sub') && Order(g) == All(f, child, sub)
            && ToKids(nodes', g) == JoinKids(ToKids(nodes, f), Last(nodes, child, sub))
  {
    hide Order, ItemValue;
    var h := More(child, sub, Nil);
    SplitNoDup(Order(f), Order(sub) + [child]);
    SplitNoDup(Order(sub), [child]);
    ChainFrame(nodes, nodes', first, f, Some(child));
    ChainFrame(nodes, nodes', nodes[child].child, sub, None);
    ToKidsFrame(nodes, nodes', f);
    ToKidsFrame(nodes, nodes', sub);
    assert Chain(nodes', Some(added), Nil, Some(added));
    JoinChain(nodes', first, f, Some(child), h, Some(added));
    LastJoined(f, child, sub);
    FirstKept(f, child, sub);
    JoinOrder(f, h);
    LinkedValue(nodes[child], Some(added), ToKids(nodes, sub));
    OrderOfOne(child, sub);
  }

  lemma FirstKept(f: Forest, child: Id, sub: Forest)
    ensures f.More? ==> f.id in Order(f)
    ensures var g := Join(f, More(child, sub, Nil)); g.More? && g.id == if f.Nil? then child else f.id
  {
  }

  lemma OrderOfOne(child: Id, sub: Forest)
    ensures Order(More(child, sub, Nil)) == Order(sub) + [child]
  {
    assert Order(sub) + [child] + [] == Order(sub) + [child];
  }

  // ---------------------------------------------------------------- the parser

  /** parse_value */
  method ParseItem(pool: Pool, item: Id, s: string) returns (r: Parsed<()>, ghost kids: Forest)
    requires Childless(pool, item)
    modifies pool
    ensures pool.Valid() && !pool.destroyed && pool.freed == old(pool.freed)
    ensures Handed(old(pool.live), pool.live, Order(kids)) && Same(old(pool.nodes), pool.nodes, old(pool.live) - {item})
    ensures Hangs(pool.nodes, item, kids) && pool.nodes[item].name == old(pool.nodes[item].name)
    ensures pool.nodes[item].prev == old(pool.nodes[item].prev)
    ensures Agrees(r, ParseValue(s))
    ensures r.Ok? ==> ItemValue(pool.nodes[item], ToKids(pool.nodes, kids)) == ParseValue(s).value
    decreases |s|, 1
  {
    hide ParseValue, Pool.Valid, Handed, Order, ParseNumber, ParseString;
    Scalars(s);
    NoneHanded(pool.live);
    kids := Nil;
    r := Fail;
    var n := pool.nodes[item];
    if StartsWith(s, "null") {
      n, r := n.(kind := NullItem), Ok((), s[4..]);
    } else if StartsWith(s, "false") {
      n, r := n.(kind := FalseItem), Ok((), s[5..]);
    } else if StartsWith(s, "true") {
      n, r := n.(kind := TrueItem, valueint := 1), Ok((), s[4..]);
    } else if Head(s) == QUOTE {
      var text := ScanString(s);
      if text.Ok? {
        n, r := n.(kind := StringItem, valuestring := Some(text.value)), Ok((), text.rest);
      } else if text.Unmodelled? {
        r := Unmodelled;
      }
    } else if Head(s) == '-' || IsDigit(Head(s)) {
      var number := ScanNumber(s);
      if number.Ok? {
        var x := number.value;
        n, r := n.(kind := NumberItem, valueint := x.valueint, valuedouble := x.valuedouble), Ok((), number.rest);
      } else {
        r := Unmodelled;
      }
    } else if Head(s) == '[' || Head(s) == '{' {
      r, kids := ParseBrackets(pool, item, s);
      return;
    }
    Set(pool, item, n);
  }

  /** What the parser does on anything but a bracket. */
  lemma Scalars(s: string)
    ensures ParseValue(s) ==
            if StartsWith(s, "null") then Ok(Null, s[4..])
            else if StartsWith(s, "false") then Ok(False, s[5..])
            else if StartsWith(s, "true") then Ok(True, s[4..])
            else if Head(s) == QUOTE then Text(ParseString(s))
            else if Head(s) == '-' || IsDigit(Head(s)) then ParseNumber(s)
            else if Head(s) == '[' || Head(s) == '{' then ParseValue(s)
            else Fail
  {
    hide ParseItems, ParseMembers, ParseNumber, ParseString, Skip, StartsWith;
  }

  function Text(p: Parsed<string>): Parsed<Value> {
    match p
    case Ok(text, rest) => Ok(String(text), rest)
    case Fail => Fail
    case Unmodelled => Unmodelled
  }

  /** Overwrite an item's value fields. */
  method Set(pool: Pool, item: Id, n: Node)
    requires Childless(pool, item) && n.child == None && n.next == None
    modifies pool`nodes
    ensures Childless(pool, item) && Same(old(pool.nodes), pool.nodes, pool.live - {item}) && pool.nodes[item] == n
  {
    pool.nodes := pool.nodes[item := n];
  }

  /** parse_array and parse_object, up to their lists of children. */
  method ParseBrackets(pool: Pool, item: Id, s: string) returns (r: Parsed<()>, ghost kids: Forest)
    requires Childless(pool, item) && (Head(s) == '[' || Head(s) == '{')
    modifies pool
    ensures pool.Valid() && !pool.destroyed && pool.freed == old(pool.freed)
    ensures Handed(old(pool.live), pool.live, Order(kids)) && Same(old(pool.nodes), pool.nodes, old(pool.live) - {item})
    ensures Hangs(pool.nodes, item, kids) && pool.nodes[item].name == old(pool.nodes[item].name)
    ensures pool.nodes[item].prev == old(pool.nodes[item].prev)
    ensures Agrees(r, ParseValue(s))
    ensures r.Ok? ==> ItemValue(pool.nodes[item], ToKids(pool.nodes, kids)) == ParseValue(s).value
    decreases |s|, 0
  {
    hide ParseValue, ParseItems, ParseMembers, Skip, Pool.Valid, Handed, Order;
    NoneHanded(pool.live);
    var named := Head(s) == '{';
    Brackets(s);
    Set(pool, item, pool.nodes[item].(kind := if named then ObjectItem else ArrayItem));
    var value := SkipSpace(s[1..]);
    if Head(value) == (if named then CLOSE_OBJECT else CLOSE_ARRAY) {
      return Ok((), value[1..]), Nil;
    }
    r, kids := ParseChildren(pool, item, value, named);
  }

  /** The part parse_array and parse_object have in common: the children up to the closing bracket. */
  method ParseChildren(pool: Pool, item: Id, s: string, named: bool) returns (r: Parsed<()>, ghost kids: Forest)
    requires Childless(pool, item)
    modifies pool
    ensures pool.Valid() && !pool.destroyed && pool.freed == old(pool.freed)
    ensures Handed(old(pool.live), pool.live, Order(kids)) && Same(old(pool.nodes), pool.nodes, old(pool.live) - {item})
    ensures Hangs(pool.nodes, item, kids) && pool.nodes[item] == old(pool.nodes[item]).(child := pool.nodes[item].child)
    ensures Agrees(r, ParseList(named, s))
    ensures r.Ok? ==> ToKids(pool.nodes, kids) == ParseList(named, s).value
    decreases |s|, 4
  {
    hide ParseList, ParseOne, Order, IdSet, Chain, Skip, ToKids, ItemValue, Pool.Valid, NoDup, Handed, Continue,
      JoinKids;
    ghost var was, from := pool.live, pool.nodes;
    var child, one, sub := AddChild(pool, item, true, s, named);
    ghost var f := Nil;
    FirstChild(pool.nodes, pool.nodes[item].child, child, sub);
    ListStep(named, s);
    if !one.Ok? {
      kids := Close(pool.nodes, was, pool.live, pool.nodes[item].child, f, child, sub);
      return one, kids;
    }
    var value := SkipSpace(one.rest);
    while Head(value) == ','
      invariant |value| < |s| && pool.Valid() && !pool.destroyed && pool.freed == old(pool.freed)
      invariant Handed(was, pool.live, All(f, child, sub)) && Same(from, pool.nodes, was - {item})
      invariant item in pool.nodes && pool.nodes[item] == from[item].(child := pool.nodes[item].child)
      invariant child in pool.live && Family(pool.nodes, pool.nodes[item].child, f, child, sub)
      invariant ParseList(named, s) == Behind(ToKids(pool.nodes, f), After(named, pool.nodes, child, sub, value))
      decreases |value|
    {
      ghost var mid, had := pool.live, pool.nodes;
      var added, next, sub' := AddChild(pool, child, false, value[1..], named);
      Extend(was, mid, pool.live, had, pool.nodes, had[item].child, f, child, sub, added, sub');
      ListStep(named, value[1..]);
      ListGrows(named, had, f, child, sub, value);
      f := Join(f, More(child, sub, Nil));
      child, one, sub := added, next, sub';
      if !one.Ok? {
        kids := Close(pool.nodes, was, pool.live, pool.nodes[item].child, f, child, sub);
        return one, kids;
      }
      value := SkipSpace(one.rest);
    }
    kids := Close(pool.nodes, was, pool.live, pool.nodes[item].child, f, child, sub);
    ListEnds(named, pool.nodes, f, child, sub, value);
    if Head(value) == (if named then CLOSE_OBJECT else CLOSE_ARRAY) {
      r := Ok((), value[1..]);
    } else {
      r := Fail;
    }
  }

  /** What the list is from a child that has been read on. */
  ghost function After(named: bool, nodes: map<Id, Node>, child: Id, sub: Forest, value: string): Parsed<Kids>
    requires child in nodes
  {
    Continue(named, nodes[child].name, ItemValue(nodes[child], ToKids(nodes, sub)), value)
  }

  lemma FirstChild(nodes: map<Id, Node>, first: Option<Id>, child: Id, sub: Forest)
    requires first == Some(child) && Hangs(nodes, child, sub) && nodes[child].prev == None
    ensures Family(nodes, first, Nil, child, sub) && All(Nil, child, sub) == Order(sub) + [child]
    ensures forall p :: Behind(ToKids(nodes, Nil), p) == p
  {
  }

  /** The children linked so far, finished or not, are one forest. */
  lemma Close(nodes: map<Id, Node>, was: set<Id>, live: set<Id>, first: Option<Id>, f: Forest, child: Id, sub: Forest)
      returns (kids: Forest)
    requires Family(nodes, first, f, child, sub) && Handed(was, live, All(f, child, sub))
    ensures Chain(nodes, first, kids, None) && PointsBack(nodes, kids, None) && Handed(was, live, Order(kids))
    ensures ToKids(nodes, kids) == JoinKids(ToKids(nodes, f), Last(nodes, child, sub))
  {
    hide Handed, Order, Chain;
    FamilyForest(nodes, first, f, child, sub);
    kids := Join(f, More(child, sub, Nil));
  }

  lemma HandedMore(was: set<Id>, mid: set<Id>, now: set<Id>, a: seq<Id>, b: seq<Id>)
    requires Handed(was, mid, a) && Handed(mid, now, b)
    ensures Handed(was, now, a + b)
  {
    JoinNoDup(a, b);
    assert now == was + IdSet(a + b);
  }

  lemma Extend(was: set<Id>, mid: set<Id>, now: set<Id>, had: map<Id, Node>, nodes: map<Id, Node>, first: Option<Id>,
               f: Forest, child: Id, sub: Forest, added: Id, sub': Forest)
    requires Handed(was, mid, All(f, child, sub)) && Handed(mid, now, Order(sub') + [added])
    requires Family(had, first, f, child, sub) && Same(had, nodes, mid - {child})
    requires Hangs(nodes, added, sub') && nodes[added].prev == Some(child)
    requires child in nodes && nodes[child] == had[child].(next := Some(added))
    ensures var g := Join(f, More(child, sub, Nil));
            && Handed(was, now, All(g, added, sub')) && Family(nodes, first, g, added, sub')
            && ToKids(nodes, g) == JoinKids(ToKids(had, f), Last(had, child, sub))
    ensures child !in was && was <= mid
  {
    hide Order, Chain, ToKids, ItemValue, JoinKids;
    var g := Join(f, More(child, sub, Nil));
    var all := All(f, child, sub);
    HandedIds(was, mid, all);
    FamilyGrows(had, nodes, first, f, child, sub, added, sub');
    HandedMore(was, mid, now, all, Order(sub') + [added]);
  }

  lemma HandedIds(was: set<Id>, now: set<Id>, ids: seq<Id>)
    requires Handed(was, now, ids)
    ensures NoDup(ids) && (forall x :: x in ids ==> x in now && x !in was) && forall x :: x in was ==> x in now
  {
  }

  lemma ListGrows(named: bool, nodes: map<Id, Node>, f: Forest, child: Id, sub: Forest, value: string)
    requires child in nodes && Head(value) == ','
    ensures Behind(ToKids(nodes, f), After(named, nodes, child, sub, value)) ==
            Behind(JoinKids(ToKids(nodes, f), Last(nodes, child, sub)), ParseList(named, value[1..]))
  {
    hide ParseList, ToKids, ItemValue, JoinKids;
    BehindOne(ToKids(nodes, f), nodes[child].name, ItemValue(nodes[child], ToKids(nodes, sub)),
      ParseList(named, value[1..]));
  }

  lemma ListEnds(named: bool, nodes: map<Id, Node>, f: Forest, child: Id, sub: Forest, value: string)
    requires child in nodes && Head(value) != ','
    ensures Behind(ToKids(nodes, f), After(named, nodes, child, sub, value)) ==
            if Head(value) == (if named then CLOSE_OBJECT else CLOSE_ARRAY)
              then Ok(JoinKids(ToKids(nodes, f), Last(nodes, child, sub)), value[1..])
            else Fail
  {
    hide ParseList, ToKids, ItemValue, JoinKids;
  }

  /** Take a new item, link it below `at` or behind it, and read a child into it. */
  method AddChild(pool: Pool, at: Id, below: bool, s: string, named: bool)
      returns (added: Id, r: Parsed<()>, ghost sub: Forest)
    requires pool.Valid() && !pool.destroyed && at in pool.live && at in pool.nodes
    modifies pool
    ensures pool.Valid() && !pool.destroyed && pool.freed == old(pool.freed) && added in pool.live
    ensures Handed(old(pool.live), pool.live, Order(sub) + [added])
      && Same(old(pool.nodes), pool.nodes, old(pool.live) - {at})
    ensures at in pool.nodes && at != added
    ensures pool.nodes[at] == if below then old(pool.nodes[at]).(child := Some(added))
      else old(pool.nodes[at]).(next := Some(added))
    ensures Hangs(pool.nodes, added, sub) && pool.nodes[added].prev == if below then None else Some(at)
    ensures Agrees(r, ParseOne(named, s))
    ensures r.Ok? ==>
      (pool.nodes[added].name, ItemValue(pool.nodes[added], ToKids(pool.nodes, sub))) == ParseOne(named, s).value
    decreases |s|, 3
  {
    hide ParseOne, ToKids, ItemValue, Order, Pool.Valid, Handed, NoDup;
    added := pool.NewItem();
    Link(pool, at, below, added);
    ghost var mid := pool.live;
    OneHanded(old(pool.live), mid, added);
    r, sub := ParseChild(pool, added, s, named);
    HandedMore(old(pool.live), mid, pool.live, [added], Order(sub));
    HandedTurn(old(pool.live), pool.live, added, Order(sub));
    HandedIds(old(pool.live), pool.live, Order(sub) + [added]);
  }

  lemma OneHanded(was: set<Id>, now: set<Id>, x: Id)
    requires x !in was && now == was + {x}
    ensures Handed(was, now, [x])
  {
  }

  lemma HandedTurn(was: set<Id>, now: set<Id>, x: Id, ids: seq<Id>)
    requires Handed(was, now, [x] + ids)
    ensures Handed(was, now, ids + [x])
  {
    SplitNoDup([x], ids);
    JoinNoDup(ids, [x]);
    assert forall y :: y in [x] + ids <==> y in ids + [x];
    assert IdSet([x] + ids) == IdSet(ids + [x]);
  }

  method Link(pool: Pool, at: Id, below: bool, added: Id)
    requires pool.Valid() && !pool.destroyed && at in pool.live && at in pool.nodes && added in pool.live
      && added in pool.nodes && at != added
    modifies pool`nodes
    ensures pool.Valid() && Same(old(pool.nodes), pool.nodes, pool.live - {at, added}) && at in pool.nodes
      && added in pool.nodes
    ensures pool.nodes[at] == if below then old(pool.nodes[at]).(child := Some(added))
      else old(pool.nodes[at]).(next := Some(added))
    ensures pool.nodes[added] == if below then old(pool.nodes[added]) else old(pool.nodes[added]).(prev := Some(at))
  {
    var n := pool.nodes[at];
    if below {
      pool.nodes := pool.nodes[at := n.(child := Some(added))];
    } else {
      pool.nodes := pool.nodes[at := n.(next := Some(added))][added := pool.nodes[added].(prev := Some(at))];
    }
  }

  /** One element, or one member with its name and colon. */
  method ParseChild(pool: Pool, child: Id, s: string, named: bool) returns (r: Parsed<()>, ghost sub: Forest)
    requires Childless(pool, child) && pool.nodes[child].name == None
    modifies pool
    ensures pool.Valid() && !pool.destroyed && pool.freed == old(pool.freed)
    ensures Handed(old(pool.live), pool.live, Order(sub)) && Same(old(pool.nodes), pool.nodes, old(pool.live) - {child})
    ensures Hangs(pool.nodes, child, sub) && pool.nodes[child].prev == old(pool.nodes[child].prev)
    ensures Agrees(r, ParseOne(named, s))
    ensures r.Ok? ==>
      (pool.nodes[child].name, ItemValue(pool.nodes[child], ToKids(pool.nodes, sub))) == ParseOne(named, s).value
    decreases |s|, 2
  {
    hide ParseValue, ParseString, ToKids, ItemValue, Skip, Pool.Valid, Handed, Order;
    NoneHanded(pool.live);
    pool.LiveKnown();
    var value := SkipSpace(s);
    if named {
      var text := ScanString(value);
      if !text.Ok? {
        return if text.Fail? then Fail else Unmodelled, Nil;
      }
      var n := pool.nodes[child].(kind := StringItem, valuestring := Some(text.value));
      Set(pool, child, n.(name := n.valuestring, valuestring := None));
      value := SkipSpace(text.rest);
      if Head(value) != ':' {
        return Fail, Nil;
      }
      value := SkipSpace(value[1..]);
    }
    r, sub := ParseItem(pool, child, value);
  }

  lemma NoneHanded(live: set<Id>)
    ensures Handed(live, live, Order(Nil))
  {
  }

  /** The items of a tree are freed with the root last. */
  lemma RootFreedLast(tree: Forest)
    requires tree.More? && tree.rest.Nil? && NoDup(Order(tree))
    ensures var ids := Order(tree);
      ids[|ids| - 1] == tree.id && ids[..|ids| - 1] == Order(tree.kids) && tree.id !in Order(tree.kids)
  {
    Parts(tree);
  }

  /**
   cJSON_Parse: on success the items handed out are exactly those of the parsed tree; on failure
   whatever had been linked is deleted and the pool is gone.
   */
  method ParseDocument(text: string) returns (pool: Pool, out: Parsed<Id>, ghost tree: Forest)
    ensures fresh(pool) && pool.Valid() && Agrees(out, ParseValue(Skip(text)))
    ensures tree.More? && tree.rest.Nil? && NoDup(Order(tree))
    ensures out.Ok? ==> !pool.destroyed && pool.freed == [] && pool.live == IdSet(Order(tree)) && tree.id == out.value
    ensures out.Ok? ==> Chain(pool.nodes, Some(out.value), tree, None)
    ensures out.Ok? ==> ToKids(pool.nodes, tree) == Kid(None, ParseValue(Skip(text)).value, End)
    ensures out.Ok? <==> exists v :: JsonLayout.Denotes(text, v)
    ensures forall v :: JsonLayout.Denotes(text, v) ==> ToKids(pool.nodes, tree) == Kid(None, v, End)
    ensures out.Fail? ==> pool.destroyed && pool.freed == Order(tree)
  {
    hide ParseValue, Skip, Pool.Valid, Handed, NoDup, ItemValue, JsonLayout.Denotes;
    Language(text);
    pool := new Pool();
    var c := pool.NewItem();
    ghost var first := pool.live;
    OneHanded({}, first, c);
    var value := SkipSpace(text);
    var r, kids := ParseItem(pool, c, value);
    tree := More(c, kids, Nil);
    HandedMore({}, first, pool.live, [c], Order(kids));
    HandedTurn({}, pool.live, c, Order(kids));
    OrderOfOne(c, kids);
    HandedIds({}, pool.live, Order(tree));
    assert pool.live == IdSet(Order(tree)) by { AllHanded(pool.live, Order(tree)); }
    if r.Fail? {
      pool.Delete(Some(c), tree);
      out := Fail;
    } else if r.Unmodelled? {
      out := Unmodelled;
    } else {
      out := Ok(c, r.rest);
    }
  }

  lemma Language(text: string)
    ensures ParseValue(Skip(text)).Ok? <==> exists v :: JsonLayout.Denotes(text, v)
    ensures forall v :: JsonLayout.Denotes(text, v) ==> ParseValue(Skip(text)).Ok? && ParseValue(Skip(text)).value == v
  {
    hide ParseValue, Skip, JsonLayout.Denotes;
    forall v
      ensures JsonLayout.Denotes(text, v) <==> ParseValue(Skip(text)).Ok? && ParseValue(Skip(text)).value == v
    {
      JsonLayout.DocumentIff(text, v);
    }
    if ParseValue(Skip(text)).Ok? {
      assert JsonLayout.Denotes(text, ParseValue(Skip(text)).value);
    }
  }

  lemma AllHanded(live: set<Id>, ids: seq<Id>)
    requires Handed({}, live, ids)
    ensures live == IdSet(ids)
  {
  }

  /** cJSON_Delete on the root of a parsed document: every item is freed once, the root last, and with it the pool. */
  method DeleteDocument(pool: Pool, root: Id, ghost tree: Forest)
    requires pool.Valid() && !pool.destroyed && tree.More? && tree.rest.Nil? && tree.id == root
    requires Chain(pool.nodes, Some(root), tree, None) && NoDup(Order(tree)) && pool.live == IdSet(Order(tree))
    modifies pool
    ensures pool.destroyed && pool.freed == old(pool.freed) + Order(tree.kids) + [root] && root !in Order(tree.kids)
  {
    hide Chain, Order, Pool.Valid, NoDup;
    RootFreedLast(tree);
    OrderOfOne(root, tree.kids);
    pool.Delete(Some(root), tree);
    assert pool.live == {};
  }
}
