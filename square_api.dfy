/**
 * `fetch_catalog`: one "List catalog" call to Square, normalised into the
 * `{name: price}` table the chatbot answers from.
 *
 * The HTTP exchange is an input: the outcome of the request (a transport
 * failure, or a status code with the decoded JSON body). The decoded body is
 * modelled by typed records whose fields are `Field`s, so that a missing key,
 * a value of the wrong JSON kind and a value of the expected shape are three
 * different things.
 */
module SquareApi {
  import opened Wrappers
  import opened Text
  import opened Table

  /** A JSON value that either has the shape the code expects or does not (null, a number where an object is expected, ...). */
  datatype Value<+T> = Expected(value: T) | Unexpected

  /** A key of a JSON object: `None` when the key is absent. */
  type Field<T> = Option<Value<T>>

  /** `price_money`; `amount` is the integer number of cents. */
  datatype PriceMoney = PriceMoney(amount: Field<int>)
  datatype ItemVariationData = ItemVariationData(priceMoney: Field<PriceMoney>)
  datatype ItemVariation = ItemVariation(itemVariationData: Field<ItemVariationData>)
  datatype ItemData = ItemData(name: Field<string>, variations: Field<seq<Value<ItemVariation>>>)
  /** One element of `objects`; `objectType` is the JSON key `type`. */
  datatype CatalogObject = CatalogObject(objectType: Field<string>, itemData: Field<ItemData>)
  datatype ListCatalogBody = ListCatalogBody(objects: Field<seq<Value<CatalogObject>>>)

  /** What `requests.get(...)` and `resp.json()` produce; `body` is only read on status 200. */
  datatype HttpOutcome =
    | TransportFailure
    | HttpResponse(status: int, body: Value<ListCatalogBody>)

  /** The exceptions `fetch_catalog` lets escape. */
  datatype FetchError =
    | MissingToken        // "Square access token is required."
    | Transport           // the request itself raised
    | HttpStatus(code: int)  // "Square API error (<code>): ..."
    | Malformed           // the body, or one object in it, is not shaped as the code assumes

  /** How one element of `objects` affects the table. */
  datatype Parsed = Skip | Add(name: string, cents: int) | Abort

  /** `obj.get("type") == "ITEM"`. */
  predicate IsItem(o: CatalogObject) {
    o.objectType == Some(Expected("ITEM"))
  }

  /**
   * The guarded block of `fetch_catalog`:
   * `item_data["variations"][0]["item_variation_data"]["price_money"]["amount"]`,
   * or `None` where any step raises.
   */
  function FirstAmount(d: ItemData): Option<int> {
    match d.variations
    case Some(Expected(vs)) =>
      if vs == [] then None
      else
        (match vs[0]
         case Expected(ItemVariation(Some(Expected(ItemVariationData(Some(Expected(PriceMoney(Some(Expected(a)))))))))) => Some(a)
         case _ => None)
    case _ => None
  }

  /** The item data of an ITEM object: `obj.get("item_data", {})`, `None` when it is not an object. */
  function ItemDataOf(o: CatalogObject): Option<ItemData> {
    match o.itemData
    case None => Some(ItemData(None, None))
    case Some(Expected(d)) => Some(d)
    case Some(Unexpected) => None
  }

  /** `item_data.get("name", "")`, `None` when it is not a string (`.strip()` then raises). */
  function RawName(d: ItemData): Option<string> {
    match d.name
    case None => Some("")
    case Some(Expected(s)) => Some(s)
    case Some(Unexpected) => None
  }

  /** The effect of one pass of the loop body on `obj`. */
  function ParseObject(v: Value<CatalogObject>): (r: Parsed)
    ensures v.Unexpected? ==> r == Abort
    ensures v.Expected? && !IsItem(v.value) ==> r == Skip
    ensures v.Expected? && IsItem(v.value) ==>
              (r == Abort <==> ItemDataOf(v.value).None? || RawName(ItemDataOf(v.value).value).None?)
    ensures v.Expected? && IsItem(v.value) && ItemDataOf(v.value).Some? && RawName(ItemDataOf(v.value).value).Some? ==>
              (r.Add? <==> FirstAmount(ItemDataOf(v.value).value).Some? && Clean(RawName(ItemDataOf(v.value).value).value) != [])
    ensures r.Add? ==> IsCleanName(r.name)
    ensures r.Add? ==> v.Expected? && IsItem(v.value) && ItemDataOf(v.value).Some?
                       && RawName(ItemDataOf(v.value).value).Some?
                       && r.name == Clean(RawName(ItemDataOf(v.value).value).value)
                       && FirstAmount(ItemDataOf(v.value).value) == Some(r.cents)
  {
    match v
    case Unexpected => Abort
    case Expected(o) =>
      if !IsItem(o) then Skip
      else
        match ItemDataOf(o)
        case None => Abort
        case Some(d) =>
          match RawName(d)
          case None => Abort
          case Some(raw) =>
            var name := Clean(raw);
            match FirstAmount(d)
            case None => Skip
            case Some(amount) => if name == [] then Skip else Add(name, amount)
  }

  /** `p` stores an entry under the key `k`. */
  predicate Adds(p: Parsed, k: string) {
    p.Add? && p.name == k
  }

  /** Folds one parsed object into the table built so far. */
  function Step(acc: Result<Table, FetchError>, p: Parsed): Result<Table, FetchError> {
    match acc
    case Err(e) => Err(e)
    case Ok(t) =>
      match p
      case Skip => Ok(t)
      case Add(name, cents) => Ok(Insert(t, name, cents))
      case Abort => Err(Malformed)
  }

  /** The table a loop over objects with effects `ps` builds, or the error that stops it. */
  function Build(ps: seq<Parsed>): Result<Table, FetchError> {
    if ps == [] then Ok([])
    else Step(Build(ps[..|ps| - 1]), ps[|ps| - 1])
  }

  /** The table the loop over `objects` builds, or the error that stops it. */
  function Normalize(objs: seq<Value<CatalogObject>>): Result<Table, FetchError> {
    Build(Parses(objs))
  }

  /** What `fetch_catalog` returns or raises. */
  function Fetch(accessToken: Option<string>, http: HttpOutcome): (r: Result<Table, FetchError>)
    ensures (accessToken.None? || accessToken.value == []) ==> r == Err(MissingToken)
    ensures accessToken.Some? && accessToken.value != [] && http.HttpResponse? && http.status != 200
            ==> r == Err(HttpStatus(http.status))
    ensures accessToken.Some? && accessToken.value != [] && http.TransportFailure? ==> r == Err(Transport)
    ensures accessToken.Some? && accessToken.value != [] && http.HttpResponse? && http.status == 200
            && http.body.Expected? && http.body.value.objects.Some? && http.body.value.objects.value.Expected?
            ==> r == Normalize(http.body.value.objects.value.value)
    ensures accessToken.Some? && accessToken.value != [] && http.HttpResponse? && http.status == 200
            && (http.body.Unexpected? || http.body.value.objects == Some(Unexpected))
            ==> r == Err(Malformed)
    ensures accessToken.Some? && accessToken.value != [] && http == HttpResponse(200, Expected(ListCatalogBody(None)))
            ==> r == Ok([])
    ensures r.Ok? ==> WellFormed(r.value)
  {
    if accessToken.None? || accessToken.value == [] then Err(MissingToken)
    else match http
      case TransportFailure => Err(Transport)
      case HttpResponse(status, body) =>
        if status != 200 then Err(HttpStatus(status))
        else match body
          case Unexpected => Err(Malformed)
          case Expected(ListCatalogBody(objects)) =>
            match objects
            case None => Ok([])
            case Some(Unexpected) => Err(Malformed)
            case Some(Expected(objs)) =>
              NormalizeWellFormed(objs);
              Normalize(objs)
  }

  /** Every key is a cleaned name and no key repeats. */
  predicate WellFormed(t: Table) {
    DistinctKeys(t) && forall i :: 0 <= i < |t| ==> IsCleanName(t[i].0)
  }

  /** Every entry stored by `ps` is under a cleaned name, as `ParseObject` guarantees. */
  predicate CleanAdds(ps: seq<Parsed>) {
    forall j :: 0 <= j < |ps| && ps[j].Add? ==> IsCleanName(ps[j].name)
  }

  /** The effect of each object of `objs`, in order. */
  function Parses(objs: seq<Value<CatalogObject>>): (ps: seq<Parsed>)
    ensures |ps| == |objs| && forall j :: 0 <= j < |objs| ==> ps[j] == ParseObject(objs[j])
  {
    seq(|objs|, j requires 0 <= j < |objs| => ParseObject(objs[j]))
  }

  /**
   * The price of the LAST entry of `ps` that stores under `k`, stated
   * independently of the table.
   */
  function LastPrice(ps: seq<Parsed>, k: string): (r: Option<int>)
    ensures r.None? <==> forall j :: 0 <= j < |ps| ==> !Adds(ps[j], k)
    ensures r.Some? ==>
              exists j :: && 0 <= j < |ps| && ps[j] == Add(k, r.value)
                          && forall j' :: j < j' < |ps| ==> !Adds(ps[j'], k)
  {
    if ps == [] then None
    else
      var n := |ps| - 1;
      if Adds(ps[n], k) then Some(ps[n].cents)
      else
        var prefix := ps[..n];
        assert forall j :: 0 <= j < n ==> prefix[j] == ps[j];
        LastPrice(prefix, k)
  }

  /** The fold advances one object at a time. */
  lemma BuildSnoc(ps: seq<Parsed>, i: nat)
    requires i < |ps|
    ensures Build(ps[..i + 1]) == Step(Build(ps[..i]), ps[i])
  {
    assert ps[..i + 1][..i] == ps[..i];
  }

  lemma {:induction false} BuildWellFormed(ps: seq<Parsed>)
    requires CleanAdds(ps)
    ensures Build(ps).Ok? ==> WellFormed(Build(ps).value)
  {
    if ps != [] {
      var n := |ps| - 1;
      var prefix := ps[..n];
      assert forall j :: 0 <= j < n ==> prefix[j] == ps[j];
      BuildWellFormed(prefix);
      var p := ps[n];
      if Build(prefix).Ok? && p.Add? {
        var t := Build(prefix).value;
        var r := Insert(t, p.name, p.cents);
        InsertKeepsDistinct(t, p.name, p.cents);
        InsertKeys(t, p.name, p.cents);
        forall i | 0 <= i < |r| ensures IsCleanName(r[i].0) {
          assert Keys(r)[i] == r[i].0;
          if i < |t| { assert Keys(t)[i] == t[i].0; }
        }
      }
    }
  }

  lemma NormalizeWellFormed(objs: seq<Value<CatalogObject>>)
    ensures Normalize(objs).Ok? ==> WellFormed(Normalize(objs).value)
  {
    BuildWellFormed(Parses(objs));
  }

  /** The stored price for `k` is that of the last object that stores under `k`. */
  lemma {:induction false} BuildLookup(ps: seq<Parsed>, k: string)
    requires Build(ps).Ok?
    ensures Lookup(Build(ps).value, k) == LastPrice(ps, k)
  {
    if ps != [] {
      var prefix := ps[..|ps| - 1];
      BuildLookup(prefix, k);
      var p := ps[|ps| - 1];
      if p.Add? {
        InsertLookup(Build(prefix).value, p.name, p.cents);
      }
    }
  }

  /** The names the objects store under, in object order, repeats included. */
  function Names(ps: seq<Parsed>): (ns: seq<string>)
    ensures forall x :: x in ns <==> exists j :: 0 <= j < |ps| && Adds(ps[j], x)
  {
    if ps == [] then []
    else
      var n := |ps| - 1;
      var prefix := ps[..n];
      assert forall j :: 0 <= j < n ==> prefix[j] == ps[j];
      Names(prefix) + if ps[n].Add? then [ps[n].name] else []
  }

  /** The position of the first occurrence of `x` in `s`. */
  function FirstIndex(s: seq<string>, x: string): (i: nat)
    requires x in s
    ensures i < |s| && s[i] == x && forall j :: 0 <= j < i ==> s[j] != x
  {
    if s[0] == x then 0 else 1 + FirstIndex(s[1..], x)
  }

  lemma FirstIndexAppend(s: seq<string>, y: string, x: string)
    requires x in s
    ensures FirstIndex(s + [y], x) == FirstIndex(s, x)
  {
    var i := FirstIndex(s, x);
    assert (s + [y])[i] == x;
  }

  /** The keys of `t` are the names in `ns`, each once, ordered by where they first occur in `ns`. */
  ghost predicate FirstOccurrenceOrder(t: Table, ns: seq<string>) {
    && (forall x :: x in Keys(t) <==> x in ns)
    && (forall i, j :: 0 <= i < j < |t| ==>
          t[i].0 in ns && t[j].0 in ns && FirstIndex(ns, t[i].0) < FirstIndex(ns, t[j].0))
  }

  /** Overwriting a key: the table's keys are unchanged, and each first occurrence stays where it was. */
  lemma OverwriteKeepsOrder(t: Table, ns: seq<string>, k: string, v: int)
    requires FirstOccurrenceOrder(t, ns) && k in Keys(t)
    ensures FirstOccurrenceOrder(Insert(t, k, v), ns + [k])
  {
    var t' := Insert(t, k, v);
    InsertKeys(t, k, v);
    forall x | x in ns { FirstIndexAppend(ns, k, x); }
    forall i | 0 <= i < |t'| ensures t'[i].0 == t[i].0 {
      assert Keys(t')[i] == t'[i].0 && Keys(t)[i] == t[i].0;
    }
  }

  /** Adding a new key: it goes last, and its first occurrence is the last name. */
  lemma AppendKeepsOrder(t: Table, ns: seq<string>, k: string, v: int)
    requires FirstOccurrenceOrder(t, ns) && k !in Keys(t)
    ensures FirstOccurrenceOrder(Insert(t, k, v), ns + [k])
  {
    var t', ns' := Insert(t, k, v), ns + [k];
    InsertKeys(t, k, v);
    forall x | x in ns { FirstIndexAppend(ns, k, x); }
    assert FirstIndex(ns', k) == |ns|;
    forall i | 0 <= i < |t'| ensures t'[i].0 == (Keys(t) + [k])[i] {
      assert Keys(t')[i] == t'[i].0;
    }
    forall i | 0 <= i < |t| ensures t[i].0 in ns && FirstIndex(ns', t[i].0) < |ns| {
      assert Keys(t)[i] == t[i].0;
    }
  }

  /**
   * A key keeps the position where it was first inserted: the keys are the
   * stored names, each once, ordered by their first occurrence.
   */
  lemma {:induction false} BuildOrder(ps: seq<Parsed>)
    requires Build(ps).Ok?
    ensures FirstOccurrenceOrder(Build(ps).value, Names(ps))
  {
    if ps != [] {
      var n := |ps| - 1;
      var prefix := ps[..n];
      BuildOrder(prefix);
      var p := ps[n];
      if p.Add? {
        assert Names(ps) == Names(prefix) + [p.name];
        var t := Build(prefix).value;
        if p.name in Keys(t) {
          OverwriteKeepsOrder(t, Names(prefix), p.name, p.cents);
        } else {
          AppendKeepsOrder(t, Names(prefix), p.name, p.cents);
        }
      } else {
        assert Names(ps) == Names(prefix);
      }
    }
  }

  /** An object that stores nothing leaves the table as it is, and the objects after it are processed as if it were absent. */
  lemma {:induction false} BuildSkip(ps: seq<Parsed>, rest: seq<Parsed>)
    ensures Build(ps + [Skip] + rest) == Build(ps + rest)
    decreases |rest|
  {
    var a, b := ps + [Skip] + rest, ps + rest;
    if rest == [] {
      assert a[..|a| - 1] == ps && a[|a| - 1] == Skip;
      assert b == ps;
      assert Step(Build(ps), Skip) == Build(ps);
    } else {
      var n := |rest| - 1;
      assert a[..|a| - 1] == ps + [Skip] + rest[..n] && a[|a| - 1] == rest[n];
      assert b[..|b| - 1] == ps + rest[..n] && b[|b| - 1] == rest[n];
      BuildSkip(ps, rest[..n]);
    }
  }

  lemma SkipIsTransparent(objs: seq<Value<CatalogObject>>, o: Value<CatalogObject>, rest: seq<Value<CatalogObject>>)
    requires ParseObject(o) == Skip
    ensures Normalize(objs + [o] + rest) == Normalize(objs + rest)
  {
    assert Parses(objs + [o] + rest) == Parses(objs) + [Skip] + Parses(rest);
    assert Parses(objs + rest) == Parses(objs) + Parses(rest);
    BuildSkip(Parses(objs), Parses(rest));
  }

  /** The loop raises exactly when some object is malformed where the code reads it unguarded. */
  lemma {:induction false} BuildFails(ps: seq<Parsed>)
    ensures Build(ps).Err? <==> exists j :: 0 <= j < |ps| && ps[j] == Abort
    ensures Build(ps).Err? ==> Build(ps) == Err(Malformed)
  {
    if ps != [] {
      var n := |ps| - 1;
      var prefix := ps[..n];
      BuildFails(prefix);
      if exists j :: 0 <= j < n && prefix[j] == Abort {
        var j :| 0 <= j < n && prefix[j] == Abort;
        assert ps[j] == Abort;
      }
      if exists j :: 0 <= j < |ps| && ps[j] == Abort {
        var j :| 0 <= j < |ps| && ps[j] == Abort;
        if j < n { assert prefix[j] == Abort; }
      }
    }
  }

  /**
   * `fetch_catalog(access_token, location_id)`; `http` is what the GET request
   * would produce. `locationId` is not used, as in the source.
   */
  method FetchCatalog(accessToken: Option<string>, locationId: Option<string>, http: HttpOutcome)
    returns (r: Result<Table, FetchError>)
    ensures r == Fetch(accessToken, http)
    ensures r.Ok? ==> WellFormed(r.value)
  {
    if accessToken.None? || accessToken.value == [] {
      return Err(MissingToken);
    }
    if http.TransportFailure? {
      return Err(Transport);
    }
    if http.status != 200 {
      return Err(HttpStatus(http.status));
    }
    if http.body.Unexpected? {
      return Err(Malformed);
    }
    var items: seq<Value<CatalogObject>> := [];
    match http.body.value.objects {
      case None =>
      case Some(Unexpected) => return Err(Malformed);
      case Some(Expected(objs)) => items := objs;
    }
    ghost var ps := Parses(items);
    var catalog: Table := [];
    for i := 0 to |items|
      invariant Build(ps[..i]) == Ok(catalog)
    {
      BuildSnoc(ps, i);
      var obj := items[i];
      if obj.Unexpected? {
        BuildFails(ps);
        return Err(Malformed);
      }
      var o := obj.value;
      if o.objectType != Some(Expected("ITEM")) {
        continue;
      }
      var data: ItemData;
      match o.itemData {
        case None => data := ItemData(None, None);
        case Some(Unexpected) =>
          BuildFails(ps);
          return Err(Malformed);
        case Some(Expected(d)) => data := d;
      }
      var name: string;
      match data.name {
        case None => name := "";
        case Some(Unexpected) =>
          BuildFails(ps);
          return Err(Malformed);
        case Some(Expected(s)) => name := Clean(s);
      }
      // the guarded block: a missing or ill-typed step skips the object
      var amount := FirstAmount(data);
      if amount.None? {
        continue;
      }
      if name != [] {
        catalog := Insert(catalog, name, amount.value);
      }
    }
    assert ps[..|items|] == ps;
    NormalizeWellFormed(items);
    return Ok(catalog);
  }

  /** Two fetches that receive the same response produce the same table. */
  method FetchTwice(accessToken: Option<string>, locationId: Option<string>, http: HttpOutcome)
    returns (first: Result<Table, FetchError>, second: Result<Table, FetchError>)
    ensures first == second
  {
    first := FetchCatalog(accessToken, locationId, http);
    second := FetchCatalog(accessToken, locationId, http);
  }
}
