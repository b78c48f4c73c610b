/**
 * The hierarchy store: the province, city, district and hospital tables with
 * their per-parent uniqueness, AUTOINCREMENT ids and enforced foreign keys;
 * upserts that keep an optional column when the new value is NULL; plain
 * create/get/update/delete; INSERT OR IGNORE batches; paged listings; and the
 * task table.
 *
 * All four levels share one row shape. A province has no parent column (its
 * `parentId` is 0, so the per-parent key is its name); only hospitals have a
 * website and a confidence, and hospitals have no code. Each table is the
 * sequence of its rows in rowid order, with its AUTOINCREMENT counter beside
 * it. A statement that raises rolls the whole connection back, so a failing
 * call leaves every table as it was and returns `Err`.
 */
module GeoDb {
  import opened Wrappers
  import Listing

  datatype Row = Row(
    id: int,
    parentId: int,
    name: string,
    code: Option<string>,
    website: Option<string>,
    confidence: Option<real>)

  datatype Level = ProvinceLevel | CityLevel | DistrictLevel | HospitalLevel

  /** What SQLite raises: a violated UNIQUE, NOT NULL or FOREIGN KEY
      constraint, an unknown column, or Python's division by zero. */
  datatype DbError = IntegrityError | OperationalError | ZeroDivisionError | KeyError

  function Name(r: Row): string { r.name }

  // ---------------------------------------------------------------------
  // Row selection

  /** The `WHERE` clauses the queries use. */
  datatype Sel = ById(id: int) | ByKey(parentId: int, name: string) | ByName(name: string) | ByCode(code: string)
               | ByNameOrCode(s: string) | ByParent(parentId: int)

  predicate Matches(r: Row, s: Sel)
  {
    match s
    case ById(id) => r.id == id
    case ByKey(p, n) => r.parentId == p && r.name == n
    case ByName(n) => r.name == n
    case ByCode(c) => r.code == Some(c)
    case ByNameOrCode(x) => r.name == x || r.code == Some(x)
    case ByParent(p) => r.parentId == p
  }

  /** `fetchone()`: the first matching row in rowid order. */
  function FirstWhere(rows: seq<Row>, s: Sel): (r: Option<nat>)
    ensures r.Some? ==> r.value < |rows| && Matches(rows[r.value], s)
    ensures r.Some? ==> forall j :: 0 <= j < r.value ==> !Matches(rows[j], s)
    ensures r.None? <==> forall j :: 0 <= j < |rows| ==> !Matches(rows[j], s)
  {
    if rows == [] then None
    else if Matches(rows[0], s) then Some(0)
    else
      match FirstWhere(rows[1..], s)
      case None => None
      case Some(k) => Some(k + 1)
  }

  /** The rows matching `s`, in rowid order. */
  function Where(rows: seq<Row>, s: Sel): (r: seq<Row>)
    ensures |r| <= |rows|
    ensures forall x :: x in r <==> x in rows && Matches(x, s)
  {
    if rows == [] then []
    else
      var rest := Where(rows[1..], s);
      assert forall x :: x in rows <==> x == rows[0] || x in rows[1..];
      if Matches(rows[0], s) then [rows[0]] + rest else rest
  }

  // ---------------------------------------------------------------------
  // Table invariants

  /** The ids of a table, in rowid order. */
  function Ids(rows: seq<Row>): (r: seq<int>)
    ensures |r| == |rows| && forall i :: 0 <= i < |rows| ==> r[i] == rows[i].id
  {
    seq(|rows|, i requires 0 <= i < |rows| => rows[i].id)
  }

  predicate HasId(rows: seq<Row>, id: int)
  {
    id in Ids(rows)
  }

  /** Ids are positive, at most the counter and increasing in rowid order;
      no two rows share a (parent, name) key. */
  ghost predicate TableOk(rows: seq<Row>, counter: int)
  {
    && counter >= 0
    && (forall i :: 0 <= i < |rows| ==> 0 < rows[i].id <= counter)
    && (forall i, j :: 0 <= i < j < |rows| ==> rows[i].id < rows[j].id)
    && (forall i, j :: 0 <= i < j < |rows| ==> rows[i].parentId != rows[j].parentId || rows[i].name != rows[j].name)
  }

  /** Every row's parent exists (the foreign key). */
  ghost predicate ParentsIn(rows: seq<Row>, parents: seq<Row>)
  {
    forall i :: 0 <= i < |rows| ==> rows[i].parentId in Ids(parents)
  }

  /** The row found by a selector when only one row matches it. */
  lemma FirstWhereUnique(rows: seq<Row>, s: Sel, i: nat)
    requires i < |rows| && Matches(rows[i], s)
    requires forall j :: 0 <= j < |rows| && j != i ==> !Matches(rows[j], s)
    ensures FirstWhere(rows, s) == Some(i)
  {
  }

  lemma {:induction false} FirstWhereAppend(rows: seq<Row>, r: Row, s: Sel)
    ensures FirstWhere(rows + [r], s) ==
      if FirstWhere(rows, s).Some? then FirstWhere(rows, s) else if Matches(r, s) then Some(|rows|) else None
  {
    if rows != [] {
      assert (rows + [r])[1..] == rows[1..] + [r];
      FirstWhereAppend(rows[1..], r, s);
    }
  }

  /** The id of the row holding a key, if any. */
  function KeyId(rows: seq<Row>, parentId: int, name: string): (r: Option<int>)
    ensures r.Some? <==> exists i :: 0 <= i < |rows| && rows[i].parentId == parentId && rows[i].name == name
  {
    match FirstWhere(rows, ByKey(parentId, name))
    case None => None
    case Some(i) => Some(rows[i].id)
  }

  /** Under the key invariant, the row at `i` is the one its key finds. */
  lemma KeyIdAt(rows: seq<Row>, counter: int, i: nat)
    requires TableOk(rows, counter) && i < |rows|
    ensures FirstWhere(rows, ByKey(rows[i].parentId, rows[i].name)) == Some(i)
    ensures KeyId(rows, rows[i].parentId, rows[i].name) == Some(rows[i].id)
  {
    FirstWhereUnique(rows, ByKey(rows[i].parentId, rows[i].name), i);
  }

  // ---------------------------------------------------------------------
  // Writes, as functions on one table

  /** A table after a write, its counter, and the id the write reports. */
  datatype Written = Written(rows: seq<Row>, counter: int, id: int)

  /** `COALESCE(excluded.x, t.x)`. */
  function Coalesce<T>(stored: Option<T>, given: Option<T>): Option<T>
  {
    if given.Some? then given else stored
  }

  /** `INSERT ... ON CONFLICT(key) DO UPDATE SET x = COALESCE(excluded.x, t.x)`
      followed by the id lookup: an existing key keeps its id and row, with
      each given optional column overwriting; a new key gets the next id. */
  function Upsert(rows: seq<Row>, counter: int, parentId: int, name: string,
                  code: Option<string>, website: Option<string>, confidence: Option<real>): Written
  {
    match FirstWhere(rows, ByKey(parentId, name))
    case Some(i) =>
      var r := rows[i];
      Written(rows[i := r.(code := Coalesce(r.code, code), website := Coalesce(r.website, website),
                          confidence := Coalesce(r.confidence, confidence))], counter, r.id)
    case None =>
      Written(rows + [Row(counter + 1, parentId, name, code, website, confidence)], counter + 1, counter + 1)
  }

  /** An upsert keeps the table well-formed, keeps every row's id, parent and
      name, and adds at most one row, under the given parent. */
  lemma UpsertOk(rows: seq<Row>, counter: int, parentId: int, name: string,
                 code: Option<string>, website: Option<string>, confidence: Option<real>)
    requires TableOk(rows, counter)
    ensures var w := Upsert(rows, counter, parentId, name, code, website, confidence);
      && TableOk(w.rows, w.counter)
      && |rows| <= |w.rows| <= |rows| + 1
      && Ids(w.rows)[..|rows|] == Ids(rows)
      && (forall i :: 0 <= i < |rows| ==> w.rows[i].parentId == rows[i].parentId)
      && (forall i :: |rows| <= i < |w.rows| ==> w.rows[i].parentId == parentId)
  {
    var w := Upsert(rows, counter, parentId, name, code, website, confidence);
    match FirstWhere(rows, ByKey(parentId, name))
    case Some(i) =>
      var r := rows[i];
      var r' := r.(code := Coalesce(r.code, code), website := Coalesce(r.website, website),
                   confidence := Coalesce(r.confidence, confidence));
      assert w.rows == rows[i := r'];
      PatchAtTable(rows, counter, i, r');
      assert forall k :: 0 <= k < |rows| ==> w.rows[k].id == rows[k].id && w.rows[k].parentId == rows[k].parentId;
    case None =>
      var r := Row(counter + 1, parentId, name, code, website, confidence);
      assert w.rows == rows + [r];
      AppendRowOk(rows, counter, r);
      assert forall k :: 0 <= k < |rows| ==> w.rows[k] == rows[k];
  }

  /** After an upsert, the key names exactly the row whose id it returned. */
  lemma UpsertFinds(rows: seq<Row>, counter: int, parentId: int, name: string,
                    code: Option<string>, website: Option<string>, confidence: Option<real>)
    requires TableOk(rows, counter)
    ensures var w := Upsert(rows, counter, parentId, name, code, website, confidence);
      KeyId(w.rows, parentId, name) == Some(w.id)
  {
    UpsertOk(rows, counter, parentId, name, code, website, confidence);
    var w := Upsert(rows, counter, parentId, name, code, website, confidence);
    match FirstWhere(rows, ByKey(parentId, name))
    case Some(i) => KeyIdAt(w.rows, w.counter, i);
    case None => KeyIdAt(w.rows, w.counter, |rows|);
  }

  /** An existing key returns its own id and adds no row; a new key returns a
      fresh id one above the counter. */
  lemma UpsertId(rows: seq<Row>, counter: int, parentId: int, name: string,
                 code: Option<string>, website: Option<string>, confidence: Option<real>)
    requires TableOk(rows, counter)
    ensures var w := Upsert(rows, counter, parentId, name, code, website, confidence);
      match KeyId(rows, parentId, name)
      case Some(id) => w.id == id && |w.rows| == |rows| && w.counter == counter
      case None => w.id == counter + 1 && !HasId(rows, w.id) && |w.rows| == |rows| + 1 && w.counter == counter + 1
  {
  }

  /** Upserting the same key again returns the same id and adds no row. */
  lemma UpsertTwice(rows: seq<Row>, counter: int, parentId: int, name: string,
                    code: Option<string>, website: Option<string>, confidence: Option<real>,
                    code2: Option<string>, website2: Option<string>, confidence2: Option<real>)
    requires TableOk(rows, counter)
    ensures var w := Upsert(rows, counter, parentId, name, code, website, confidence);
      var w2 := Upsert(w.rows, w.counter, parentId, name, code2, website2, confidence2);
      w2.id == w.id && |w2.rows| == |w.rows| && w2.counter == w.counter
  {
    UpsertOk(rows, counter, parentId, name, code, website, confidence);
    UpsertFinds(rows, counter, parentId, name, code, website, confidence);
    var w := Upsert(rows, counter, parentId, name, code, website, confidence);
    UpsertId(w.rows, w.counter, parentId, name, code2, website2, confidence2);
  }

  /** On a conflict, a NULL keeps the stored value and anything else replaces it. */
  lemma UpsertCoalesces(rows: seq<Row>, counter: int, parentId: int, name: string,
                        code: Option<string>, website: Option<string>, confidence: Option<real>)
    requires FirstWhere(rows, ByKey(parentId, name)).Some?
    ensures var i := FirstWhere(rows, ByKey(parentId, name)).value;
      var r := Upsert(rows, counter, parentId, name, code, website, confidence).rows[i];
      && r.code == (if code.None? then rows[i].code else code)
      && r.website == (if website.None? then rows[i].website else website)
      && r.confidence == (if confidence.None? then rows[i].confidence else confidence)
  {
  }

  /** A plain `INSERT`: a taken key violates the UNIQUE constraint. */
  function Insert(rows: seq<Row>, counter: int, parentId: int, name: string,
                  code: Option<string>, website: Option<string>, confidence: Option<real>): (r: Result<Written, DbError>)
    ensures r.Err? <==> KeyId(rows, parentId, name).Some?
    ensures r.Ok? ==> r.value.rows == rows + [Row(counter + 1, parentId, name, code, website, confidence)]
                      && r.value.id == counter + 1 && r.value.counter == counter + 1
  {
    if FirstWhere(rows, ByKey(parentId, name)).Some? then Err(IntegrityError)
    else Ok(Upsert(rows, counter, parentId, name, code, website, confidence))
  }

  /** The keyword arguments of `update_*`; absent means not given. */
  datatype Patch = Patch(
    name: Option<string>,
    code: Option<Option<string>>,
    website: Option<Option<string>>,
    confidence: Option<Option<real>>)

  predicate EmptyPatch(p: Patch)
  {
    p.name.None? && p.code.None? && p.website.None? && p.confidence.None?
  }

  /** Whether every column the patch names exists at this level. */
  predicate Fits(p: Patch, level: Level)
  {
    if level == HospitalLevel then p.code.None? else p.website.None? && p.confidence.None?
  }

  function Patched(r: Row, p: Patch): (r': Row)
    ensures r'.id == r.id && r'.parentId == r.parentId
  {
    r.(name := if p.name.Some? then p.name.value else r.name,
       code := if p.code.Some? then p.code.value else r.code,
       website := if p.website.Some? then p.website.value else r.website,
       confidence := if p.confidence.Some? then p.confidence.value else r.confidence)
  }

  /** `update_*`: no keyword arguments gives False; an unknown column raises;
      otherwise the row with that id is rewritten (a name clashing with a
      sibling raises) and the result says whether there was one. */
  function Update(rows: seq<Row>, level: Level, id: int, p: Patch): Result<(seq<Row>, bool), DbError>
  {
    if EmptyPatch(p) then Ok((rows, false))
    else if !Fits(p, level) then Err(OperationalError)
    else
      match FirstWhere(rows, ById(id))
      case None => Ok((rows, false))
      case Some(i) =>
        var r := Patched(rows[i], p);
        if exists j :: 0 <= j < |rows| && j != i && rows[j].parentId == r.parentId && rows[j].name == r.name
        then Err(IntegrityError)
        else Ok((rows[i := r], true))
  }

  /** An update keeps the table well-formed and every row's id and parent,
      and it reports a row exactly when the patch names a column and the id
      exists. */
  lemma UpdateOk(rows: seq<Row>, counter: int, level: Level, id: int, p: Patch)
    requires TableOk(rows, counter)
    ensures Update(rows, level, id, p).Ok? ==>
      var (rows', found) := Update(rows, level, id, p).value;
      && TableOk(rows', counter) && Ids(rows') == Ids(rows)
      && |rows'| == |rows|
      && (forall i :: 0 <= i < |rows| ==> rows'[i].parentId == rows[i].parentId)
      && (found <==> !EmptyPatch(p) && HasId(rows, id))
      && (!found ==> rows' == rows)
  {
    if Update(rows, level, id, p).Ok? && !EmptyPatch(p) && FirstWhere(rows, ById(id)).Some? {
      var i := FirstWhere(rows, ById(id)).value;
      PatchAtTable(rows, counter, i, Patched(rows[i], p));
      var rows' := rows[i := Patched(rows[i], p)];
      assert forall k :: 0 <= k < |rows| ==> rows'[k].id == rows[k].id;
      assert Ids(rows') == Ids(rows);
    }
  }

  /** Rewriting one row in place, with its id kept and a key no other row
      holds, keeps the table well-formed. */
  lemma PatchAtTable(rows: seq<Row>, counter: int, i: nat, r: Row)
    requires TableOk(rows, counter) && i < |rows| && r.id == rows[i].id
    requires forall j :: 0 <= j < |rows| && j != i ==> rows[j].parentId != r.parentId || rows[j].name != r.name
    ensures TableOk(rows[i := r], counter)
  {
    var rows' := rows[i := r];
    forall a, b | 0 <= a < b < |rows'|
      ensures rows'[a].id < rows'[b].id
      ensures rows'[a].parentId != rows'[b].parentId || rows'[a].name != rows'[b].name
    {
      if a == i {
        assert rows'[b] == rows[b];
      } else if b == i {
        assert rows'[a] == rows[a];
      } else {
        assert rows'[a] == rows[a] && rows'[b] == rows[b];
      }
    }
  }

  /** The table without the row at `i`. */
  function RemoveAt(rows: seq<Row>, i: nat): (r: seq<Row>)
    requires i < |rows|
    ensures |r| == |rows| - 1
    ensures forall k :: 0 <= k < |r| ==> r[k] == rows[if k < i then k else k + 1]
  {
    rows[..i] + rows[i + 1..]
  }

  /** `delete_*`: a missing id gives False; a row some child still points
      at violates the foreign key; otherwise the row goes. */
  function Delete(rows: seq<Row>, children: seq<Row>, id: int): Result<(seq<Row>, bool), DbError>
  {
    match FirstWhere(rows, ById(id))
    case None => Ok((rows, false))
    case Some(i) =>
      if FirstWhere(children, ByParent(id)).Some? then Err(IntegrityError)
      else Ok((RemoveAt(rows, i), true))
  }

  lemma RemoveAtTable(rows: seq<Row>, counter: int, i: nat)
    requires TableOk(rows, counter) && i < |rows|
    ensures TableOk(RemoveAt(rows, i), counter)
  {
    var r := RemoveAt(rows, i);
    forall k | 0 <= k < |r| ensures 0 < r[k].id <= counter {
      assert r[k] == rows[if k < i then k else k + 1];
    }
    forall a, b | 0 <= a < b < |r|
      ensures r[a].id < r[b].id
      ensures r[a].parentId != r[b].parentId || r[a].name != r[b].name
    {
      var a' := if a < i then a else a + 1;
      var b' := if b < i then b else b + 1;
      assert r[a] == rows[a'] && r[b] == rows[b'] && a' < b';
    }
  }

  /** Removing a row keeps the table well-formed and every other id. */
  lemma RemoveAtOk(rows: seq<Row>, counter: int, i: nat)
    requires TableOk(rows, counter) && i < |rows|
    ensures var r := RemoveAt(rows, i);
      && TableOk(r, counter)
      && (forall x :: x in r ==> x in rows)
      && !HasId(r, rows[i].id)
      && (forall id :: HasId(rows, id) && id != rows[i].id ==> HasId(r, id))
  {
    RemoveAtTable(rows, counter, i);
    RemoveAtKeeps(rows, i);
    RemoveAtGone(rows, counter, i);
  }

  /** Removing one row keeps every other row and every other id. */
  lemma RemoveAtKeeps(rows: seq<Row>, i: nat)
    requires i < |rows|
    ensures var r := RemoveAt(rows, i);
      && (forall x :: x in r ==> x in rows)
      && (forall id :: HasId(rows, id) && id != rows[i].id ==> HasId(r, id))
  {
    var r := RemoveAt(rows, i);
    forall x | x in r ensures x in rows {
      var k :| 0 <= k < |r| && r[k] == x;
    }
    forall id | HasId(rows, id) && id != rows[i].id ensures HasId(r, id) {
      var k :| 0 <= k < |rows| && rows[k].id == id;
      assert k != i;
      var k' := if k < i then k else k - 1;
      assert r[k'] == rows[k];
      assert Ids(r)[k'] == id;
    }
  }

  /** Ids are distinct, so the removed row's id is gone. */
  lemma RemoveAtGone(rows: seq<Row>, counter: int, i: nat)
    requires TableOk(rows, counter) && i < |rows|
    ensures !HasId(RemoveAt(rows, i), rows[i].id)
  {
    var r := RemoveAt(rows, i);
    forall k | 0 <= k < |r| ensures r[k].id != rows[i].id {
      var k' := if k < i then k else k + 1;
      assert r[k] == rows[k'] && k' != i;
    }
  }

  /** A delete keeps the table well-formed and every child's parent, and
      afterwards the id is gone. */
  lemma DeleteOk(rows: seq<Row>, counter: int, children: seq<Row>, id: int)
    requires TableOk(rows, counter) && ParentsIn(children, rows)
    ensures Delete(rows, children, id).Ok? ==>
      var (rows', found) := Delete(rows, children, id).value;
      && TableOk(rows', counter) && ParentsIn(children, rows')
      && (forall x :: x in rows' ==> x in rows)
      && (found <==> HasId(rows, id))
      && !HasId(rows', id)
      && |rows'| == if found then |rows| - 1 else |rows|
  {
    match FirstWhere(rows, ById(id))
    case None =>
    case Some(i) =>
      if FirstWhere(children, ByParent(id)).None? {
        RemoveAtOk(rows, counter, i);
        forall c | 0 <= c < |children| ensures HasId(RemoveAt(rows, i), children[c].parentId) {
          assert !Matches(children[c], ByParent(id));
          assert HasId(rows, children[c].parentId);
        }
      }
  }

  // ---------------------------------------------------------------------
  // INSERT OR IGNORE batches

  /** A dict entry read with `d[key]`: the key is absent (KeyError), holds None, or holds a value. */
  datatype Entry<T> = Absent | Null | Present(value: T)

  /** One element of a `batch_create_*` list. The parent id and the name are
      subscripted; the other columns are read with `.get`, so an absent key
      reads as None. */
  datatype Item = Item(parentId: Entry<int>, name: Entry<string>, code: Option<string>,
                       website: Option<string>, confidence: Option<real>)

  /** The item has every key the loop subscripts: `name`, and below the
      province level the parent id. */
  predicate Subscriptable(level: Level, it: Item)
  {
    !it.name.Absent? && (level == ProvinceLevel || !it.parentId.Absent?)
  }

  /** A batch so far: the table, its counter and the ids collected. */
  datatype Batched = Batched(rows: seq<Row>, counter: int, ids: seq<int>)

  /** The key an item is inserted under, if it has one: provinces have no
      parent column. */
  function ItemKey(level: Level, it: Item): Option<(int, string)>
  {
    if !it.name.Present? then None
    else if level == ProvinceLevel then Some((0, it.name.value))
    else if !it.parentId.Present? then None
    else Some((it.parentId.value, it.name.value))
  }

  /** The row an item inserts, with the columns its level lacks left NULL. */
  function ItemRow(level: Level, id: int, key: (int, string), it: Item): Row
  {
    if level == HospitalLevel then Row(id, key.0, key.1, None, it.website, it.confidence)
    else Row(id, key.0, key.1, it.code, None, None)
  }

  /** One iteration: an absent subscripted key raises; a NULL in a NOT NULL
      column is ignored and the follow-up lookup finds nothing; a taken key is
      ignored and its id collected; a missing parent raises; otherwise the row
      is inserted and its id collected. */
  function BatchStep(b: Batched, level: Level, parents: seq<Row>, it: Item): Result<Batched, DbError>
  {
    if !Subscriptable(level, it) then Err(KeyError)
    else
    match ItemKey(level, it)
    case None => Ok(b)
    case Some(key) =>
      match FirstWhere(b.rows, ByKey(key.0, key.1))
      case Some(i) => Ok(b.(ids := b.ids + [b.rows[i].id]))
      case None =>
        if level != ProvinceLevel && !HasId(parents, key.0) then Err(IntegrityError)
        else
          var id := b.counter + 1;
          Ok(Batched(b.rows + [ItemRow(level, id, key, it)], id, b.ids + [id]))
  }

  function Batch(rows: seq<Row>, counter: int, level: Level, parents: seq<Row>, items: seq<Item>): Result<Batched, DbError>
    decreases |items|
  {
    if items == [] then Ok(Batched(rows, counter, []))
    else
      match Batch(rows, counter, level, parents, items[..|items| - 1])
      case Err(e) => Err(e)
      case Ok(b) => BatchStep(b, level, parents, items[|items| - 1])
  }

  /** The items a batch reports an id for: those with a key. */
  function Keyed(level: Level, items: seq<Item>): (r: seq<(int, string)>)
    ensures |r| <= |items|
    decreases |items|
  {
    if items == [] then []
    else
      var rest := Keyed(level, items[..|items| - 1]);
      match ItemKey(level, items[|items| - 1])
      case None => rest
      case Some(k) => rest + [k]
  }

  /** The facts a batch keeps: the table stays well-formed and only grows,
      every new row's parent exists, and the k-th reported id is the id of
      the row holding the k-th keyed item's key. */
  ghost predicate BatchInv(rows: seq<Row>, level: Level, parents: seq<Row>, keys: seq<(int, string)>, b: Batched)
  {
    && TableOk(b.rows, b.counter)
    && |rows| <= |b.rows| && b.rows[..|rows|] == rows
    && (forall i :: |rows| <= i < |b.rows| ==>
          if level == ProvinceLevel then b.rows[i].parentId == 0 else b.rows[i].parentId in Ids(parents))
    && |b.ids| == |keys|
    && (forall k :: 0 <= k < |keys| ==> KeyId(b.rows, keys[k].0, keys[k].1) == Some(b.ids[k]))
  }

  /** Appending a row with a new key and the next id keeps the table well-formed. */
  lemma AppendRowOk(rows: seq<Row>, counter: int, r: Row)
    requires TableOk(rows, counter) && r.id == counter + 1
    requires FirstWhere(rows, ByKey(r.parentId, r.name)).None?
    ensures TableOk(rows + [r], counter + 1)
  {
    var rows' := rows + [r];
    assert forall j :: 0 <= j < |rows| ==> rows'[j] == rows[j] && !Matches(rows[j], ByKey(r.parentId, r.name));
  }

  lemma BatchInsertKeeps(rows: seq<Row>, counter: int, r: Row, parentId: int, name: string)
    requires TableOk(rows + [r], counter) && KeyId(rows, parentId, name).Some?
    ensures KeyId(rows + [r], parentId, name) == KeyId(rows, parentId, name)
  {
    FirstWhereAppend(rows, r, ByKey(parentId, name));
  }

  /** Inserting a row for a new key keeps the batch invariant. */
  lemma BatchInsertOk(rows: seq<Row>, level: Level, parents: seq<Row>, keys: seq<(int, string)>,
                      b: Batched, key: (int, string), it: Item)
    requires BatchInv(rows, level, parents, keys, b)
    requires FirstWhere(b.rows, ByKey(key.0, key.1)).None?
    requires level == ProvinceLevel ==> key.0 == 0
    requires level == ProvinceLevel || HasId(parents, key.0)
    ensures BatchInv(rows, level, parents, keys + [key],
                     Batched(b.rows + [ItemRow(level, b.counter + 1, key, it)], b.counter + 1, b.ids + [b.counter + 1]))
  {
    var id := b.counter + 1;
    var nr := ItemRow(level, id, key, it);
    var keys' := keys + [key];
    var b' := Batched(b.rows + [nr], id, b.ids + [id]);
    assert b'.rows[..|rows|] == rows by {
      assert b'.rows[..|b.rows|] == b.rows;
    }
    AppendRowOk(b.rows, b.counter, nr);
    forall i | |rows| <= i < |b'.rows|
      ensures if level == ProvinceLevel then b'.rows[i].parentId == 0 else b'.rows[i].parentId in Ids(parents)
    {
      if i < |b.rows| { assert b'.rows[i] == b.rows[i]; }
    }
    forall k | 0 <= k < |keys'|
      ensures KeyId(b'.rows, keys'[k].0, keys'[k].1) == Some(b'.ids[k])
    {
      if k < |keys| {
        assert keys'[k] == keys[k] && b'.ids[k] == b.ids[k];
        BatchInsertKeeps(b.rows, b'.counter, nr, keys[k].0, keys[k].1);
      } else {
        KeyIdAt(b'.rows, b'.counter, |b.rows|);
      }
    }
  }

  /** Collecting the id of the row already holding the key keeps the invariant. */
  lemma BatchFoundOk(rows: seq<Row>, level: Level, parents: seq<Row>, keys: seq<(int, string)>,
                     b: Batched, key: (int, string), i: nat)
    requires BatchInv(rows, level, parents, keys, b)
    requires FirstWhere(b.rows, ByKey(key.0, key.1)) == Some(i) && i < |b.rows|
    ensures BatchInv(rows, level, parents, keys + [key], b.(ids := b.ids + [b.rows[i].id]))
  {
    var keys' := keys + [key];
    var b' := b.(ids := b.ids + [b.rows[i].id]);
    forall k | 0 <= k < |keys'|
      ensures KeyId(b'.rows, keys'[k].0, keys'[k].1) == Some(b'.ids[k])
    {
      if k < |keys| { assert keys'[k] == keys[k] && b'.ids[k] == b.ids[k]; }
    }
  }

  lemma {:induction false} BatchStepOk(rows: seq<Row>, level: Level, parents: seq<Row>, keys: seq<(int, string)>,
                                       b: Batched, it: Item)
    requires BatchInv(rows, level, parents, keys, b)
    ensures BatchStep(b, level, parents, it).Ok? ==>
      BatchInv(rows, level, parents, keys + (if ItemKey(level, it).Some? then [ItemKey(level, it).value] else []),
               BatchStep(b, level, parents, it).value)
  {
    var ik := ItemKey(level, it);
    if ik.None? {
      assert keys + [] == keys;
    } else {
      var key := ik.value;
      var f := FirstWhere(b.rows, ByKey(key.0, key.1));
      if f.Some? {
        BatchFoundOk(rows, level, parents, keys, b, key, f.value);
        assert BatchStep(b, level, parents, it) == Ok(b.(ids := b.ids + [b.rows[f.value].id]));
      } else if level == ProvinceLevel || HasId(parents, key.0) {
        BatchInsertOk(rows, level, parents, keys, b, key, it);
        assert BatchStep(b, level, parents, it)
          == Ok(Batched(b.rows + [ItemRow(level, b.counter + 1, key, it)], b.counter + 1, b.ids + [b.counter + 1]));
      } else {
        assert BatchStep(b, level, parents, it).Err?;
      }
    }
  }

  lemma {:induction false} BatchOk(rows: seq<Row>, counter: int, level: Level, parents: seq<Row>, items: seq<Item>)
    requires TableOk(rows, counter)
    ensures Batch(rows, counter, level, parents, items).Ok? ==>
      BatchInv(rows, level, parents, Keyed(level, items), Batch(rows, counter, level, parents, items).value)
    decreases |items|
  {
    if items == [] {
      assert rows[..|rows|] == rows;
    } else {
      var init := items[..|items| - 1];
      BatchOk(rows, counter, level, parents, init);
      var prev := Batch(rows, counter, level, parents, init);
      if prev.Ok? {
        BatchStepOk(rows, level, parents, Keyed(level, init), prev.value, items[|items| - 1]);
      }
    }
  }

  /** What a committed batch does to the table: it stays well formed, keeps
      its rows as a prefix, and every new row sits under the level's parents. */
  lemma BatchGrows(rows: seq<Row>, counter: int, level: Level, parents: seq<Row>, items: seq<Item>)
    requires TableOk(rows, counter)
    ensures var b := Batch(rows, counter, level, parents, items);
      b.Ok? ==>
        && TableOk(b.value.rows, b.value.counter)
        && |rows| <= |b.value.rows| && b.value.rows[..|rows|] == rows
        && (forall i :: |rows| <= i < |b.value.rows| ==>
              if level == ProvinceLevel then b.value.rows[i].parentId == 0 else b.value.rows[i].parentId in Ids(parents))
  {
    BatchOk(rows, counter, level, parents, items);
  }

  /** Provinces have no parent to miss: their batch raises exactly when an
      item has no `name` key, and then with KeyError. */
  lemma ProvinceBatchRaises(rows: seq<Row>, counter: int, items: seq<Item>)
    ensures Batch(rows, counter, ProvinceLevel, [], items).Err? <==>
              exists k :: 0 <= k < |items| && items[k].name.Absent?
    ensures Batch(rows, counter, ProvinceLevel, [], items).Err? ==>
              Batch(rows, counter, ProvinceLevel, [], items).error == KeyError
  {
    if Batch(rows, counter, ProvinceLevel, [], items).Err? {
      BatchFailure(rows, counter, ProvinceLevel, [], items);
    }
    if k :| 0 <= k < |items| && items[k].name.Absent? {
      BatchRaisesAt(rows, counter, ProvinceLevel, [], items, k);
    }
  }

  /** An item without a subscripted key makes the whole batch raise, there or earlier. */
  lemma BatchRaisesAt(rows: seq<Row>, counter: int, level: Level, parents: seq<Row>, items: seq<Item>, k: nat)
    requires k < |items| && !Subscriptable(level, items[k])
    ensures Batch(rows, counter, level, parents, items).Err?
  {
    assert items[..k + 1][..k] == items[..k];
    BatchStopsAtError(rows, counter, level, parents, items, k + 1);
  }

  /** Why a batch raises: KeyError for an item without a subscripted key, or
      IntegrityError, below the province level only, for a new key under a
      missing parent. */
  lemma {:induction false} BatchFailure(rows: seq<Row>, counter: int, level: Level, parents: seq<Row>, items: seq<Item>)
    requires Batch(rows, counter, level, parents, items).Err?
    ensures var e := Batch(rows, counter, level, parents, items).error;
      e == KeyError || e == IntegrityError
    ensures var e := Batch(rows, counter, level, parents, items).error;
      e == KeyError ==> exists k :: 0 <= k < |items| && !Subscriptable(level, items[k])
    ensures var e := Batch(rows, counter, level, parents, items).error;
      e == IntegrityError ==>
        level != ProvinceLevel &&
        exists k :: 0 <= k < |items| && items[k].parentId.Present? && !HasId(parents, items[k].parentId.value)
    decreases |items|
  {
    var init := items[..|items| - 1];
    var last := items[|items| - 1];
    if Batch(rows, counter, level, parents, init).Err? {
      BatchFailure(rows, counter, level, parents, init);
      forall k | 0 <= k < |init| ensures items[k] == init[k] {
      }
    } else if !Subscriptable(level, last) {
    } else {
      assert last.parentId.Present?;
    }
  }

  // ---------------------------------------------------------------------
  // Paged listings

  /** The dict the listing queries return. */
  datatype Page = Page(items: seq<Row>, total: nat, page: int, pageSize: int, totalPages: int)

  /** `LIMIT page_size OFFSET (page - 1) * page_size` over the rows in name
      order, with `total_pages = (total + page_size - 1) // page_size`; a
      page size of 0 makes that division raise. Page and size are echoed
      back unchanged. */
  function Paged(rows: seq<Row>, page: int, pageSize: int): Result<Page, DbError>
  {
    if pageSize == 0 then Err(ZeroDivisionError)
    else
      Ok(Page(Listing.Window(Listing.SortByName(rows, Name), (page - 1) * pageSize, pageSize),
              |rows|, page, pageSize, Listing.FloorDiv(|rows| + pageSize - 1, pageSize)))
  }

  /** For a positive page size: at most that many rows, in name order, all
      from the table. */
  lemma PagedOrder(rows: seq<Row>, page: int, pageSize: int)
    requires pageSize > 0
    ensures Paged(rows, page, pageSize).Ok?
    ensures var items := Paged(rows, page, pageSize).value.items;
      && |items| <= pageSize
      && Listing.SortedByName(items, Name)
      && (forall x :: x in items ==> x in rows)
  {
    var sorted := Listing.SortByName(rows, Name);
    Listing.SortByNameSorted(rows, Name);
    Listing.WindowOfSorted(sorted, Name, (page - 1) * pageSize, pageSize);
    Listing.SameMembers(sorted, rows);
  }

  /** Page `p` (from 1) starts at row `(p - 1) * size` of the name order. */
  lemma PagedStart(rows: seq<Row>, page: int, pageSize: int)
    requires pageSize > 0 && page >= 1
    ensures Paged(rows, page, pageSize).Ok?
    ensures var items := Paged(rows, page, pageSize).value.items;
      forall i :: 0 <= i < |items| ==> items[i] == Listing.SortByName(rows, Name)[(page - 1) * pageSize + i]
  {
    MulAtLeast0(page - 1, pageSize);
  }

  lemma MulAtLeast0(a: int, b: int)
    requires a >= 0 && b > 0
    ensures a * b >= 0
  {
  }

  /** For a positive page size, `total_pages` is the ceiling of total / size:
      0 for an empty table, and otherwise the fewest pages that hold every row. */
  lemma PagedCount(rows: seq<Row>, page: int, pageSize: int)
    requires pageSize > 0
    ensures Paged(rows, page, pageSize).Ok?
    ensures var pg := Paged(rows, page, pageSize).value;
      && pg.total == |rows|
      && (|rows| == 0 ==> pg.totalPages == 0)
      && (|rows| > 0 ==> (pg.totalPages - 1) * pageSize < |rows| <= pg.totalPages * pageSize)
  {
    Listing.CeilPages(|rows|, pageSize);
  }

  /** A negative page size is a negative LIMIT: from page 1 on, every row of
      the table comes back. */
  lemma PagedNegativeSize(rows: seq<Row>, page: int, pageSize: int)
    requires pageSize < 0 && page >= 1
    ensures Paged(rows, page, pageSize).Ok?
    ensures |Paged(rows, page, pageSize).value.items| == |rows|
  {
    assert (page - 1) * pageSize <= 0;
  }

  /** The empty page a lookup miss returns. */
  function NoPage(page: int, pageSize: int): (pg: Page)
    ensures pg.items == [] && pg.total == 0 && pg.totalPages == 0
  {
    Page([], 0, page, pageSize, 0)
  }

  // ---------------------------------------------------------------------
  // The task table

  datatype TaskRow = TaskRow(id: string, scope: string, status: string, progress: real, error: Option<string>)

  /** The keyword arguments of `update_task`. */
  datatype TaskPatch = TaskPatch(scope: Option<string>, status: Option<string>, progress: Option<real>,
                                 error: Option<Option<string>>)

  function PatchedTask(t: TaskRow, p: TaskPatch): (r: TaskRow)
    ensures r.id == t.id
  {
    t.(scope := if p.scope.Some? then p.scope.value else t.scope,
       status := if p.status.Some? then p.status.value else t.status,
       progress := if p.progress.Some? then p.progress.value else t.progress,
       error := if p.error.Some? then p.error.value else t.error)
  }

  predicate EmptyTaskPatch(p: TaskPatch)
  {
    p.scope.None? && p.status.None? && p.progress.None? && p.error.None?
  }

  // ---------------------------------------------------------------------
  // The database

  /** The four tables with their AUTOINCREMENT counters, as values. */
  datatype Tables = Tables(provinces: seq<Row>, cities: seq<Row>, districts: seq<Row>, hospitals: seq<Row>,
                           provinceSeq: int, citySeq: int, districtSeq: int, hospitalSeq: int)

  /** The schema's invariants: each table well formed, provinces at the
      top, every foreign key resolved, every task row under its own id. */
  ghost predicate DbOk(t: Tables, tasks: map<string, TaskRow>)
  {
    && TableOk(t.provinces, t.provinceSeq) && TableOk(t.cities, t.citySeq)
    && TableOk(t.districts, t.districtSeq) && TableOk(t.hospitals, t.hospitalSeq)
    && (forall i :: 0 <= i < |t.provinces| ==> t.provinces[i].parentId == 0)
    && ParentsIn(t.cities, t.provinces) && ParentsIn(t.districts, t.cities) && ParentsIn(t.hospitals, t.districts)
    && (forall id :: id in tasks ==> tasks[id].id == id)
  }

  /** Replacing the provinces keeps the invariants when the new table is
      well formed, top-level and still holds every city's province. */
  lemma ProvincesSwap(t: Tables, tasks: map<string, TaskRow>, rows: seq<Row>, counter: int)
    requires DbOk(t, tasks) && TableOk(rows, counter) && ParentsIn(t.cities, rows)
    requires forall i :: 0 <= i < |rows| ==> rows[i].parentId == 0
    ensures DbOk(t.(provinces := rows, provinceSeq := counter), tasks)
  {
  }

  /** A committed province batch keeps the database well formed. */
  lemma ProvinceBatchKeeps(t: Tables, tasks: map<string, TaskRow>, items: seq<Item>)
    requires DbOk(t, tasks) && Batch(t.provinces, t.provinceSeq, ProvinceLevel, [], items).Ok?
    ensures var b := Batch(t.provinces, t.provinceSeq, ProvinceLevel, [], items).value;
      DbOk(t.(provinces := b.rows, provinceSeq := b.counter), tasks)
  {
    var b := Batch(t.provinces, t.provinceSeq, ProvinceLevel, [], items).value;
    BatchGrows(t.provinces, t.provinceSeq, ProvinceLevel, [], items);
    PrefixIds(t.provinces, b.rows);
    ParentsKept(t.cities, t.provinces, b.rows);
    forall i | 0 <= i < |b.rows| ensures b.rows[i].parentId == 0 {
      if i < |t.provinces| {
        assert b.rows[i] == t.provinces[i];
      }
    }
    ProvincesSwap(t, tasks, b.rows, b.counter);
  }

  /** Replacing the cities: well formed, under existing provinces, and
      still holding every district's city. */
  lemma CitiesSwap(t: Tables, tasks: map<string, TaskRow>, rows: seq<Row>, counter: int)
    requires DbOk(t, tasks) && TableOk(rows, counter) && ParentsIn(rows, t.provinces) && ParentsIn(t.districts, rows)
    ensures DbOk(t.(cities := rows, citySeq := counter), tasks)
  {
  }

  /** Replacing the districts. */
  lemma DistrictsSwap(t: Tables, tasks: map<string, TaskRow>, rows: seq<Row>, counter: int)
    requires DbOk(t, tasks) && TableOk(rows, counter) && ParentsIn(rows, t.cities) && ParentsIn(t.hospitals, rows)
    ensures DbOk(t.(districts := rows, districtSeq := counter), tasks)
  {
  }

  /** Replacing the hospitals, which nothing references. */
  lemma HospitalsSwap(t: Tables, tasks: map<string, TaskRow>, rows: seq<Row>, counter: int)
    requires DbOk(t, tasks) && TableOk(rows, counter) && ParentsIn(rows, t.districts)
    ensures DbOk(t.(hospitals := rows, hospitalSeq := counter), tasks)
  {
  }

  class Database {
    var provinces: seq<Row>
    var cities: seq<Row>
    var districts: seq<Row>
    var hospitals: seq<Row>
    /** The AUTOINCREMENT counters (`sqlite_sequence`). */
    var provinceSeq: int
    var citySeq: int
    var districtSeq: int
    var hospitalSeq: int
    var tasks: map<string, TaskRow>

    ghost predicate Valid()
      reads this
    {
      DbOk(Tables(provinces, cities, districts, hospitals, provinceSeq, citySeq, districtSeq, hospitalSeq), tasks)
    }

    constructor ()
      ensures Valid()
      ensures provinces == [] && cities == [] && districts == [] && hospitals == [] && tasks == map[]
    {
      provinces, cities, districts, hospitals := [], [], [], [];
      provinceSeq, citySeq, districtSeq, hospitalSeq := 0, 0, 0, 0;
      tasks := map[];
    }

    // -- upserts ---------------------------------------------------------

    /** `upsert_province`. */
    method UpsertProvince(name: string, code: Option<string>) returns (id: int)
      requires Valid()
      modifies this
      ensures Valid()
      ensures var w := Upsert(old(provinces), old(provinceSeq), 0, name, code, None, None);
        provinces == w.rows && provinceSeq == w.counter && id == w.id
      ensures cities == old(cities) && districts == old(districts) && hospitals == old(hospitals) && tasks == old(tasks)
    {
      var w := Upsert(provinces, provinceSeq, 0, name, code, None, None);
      UpsertOk(provinces, provinceSeq, 0, name, code, None, None);
      ParentsKept(cities, provinces, w.rows);
      ProvincesSwap(Tables(provinces, cities, districts, hospitals, provinceSeq, citySeq, districtSeq, hospitalSeq),
                    tasks, w.rows, w.counter);
      provinces, provinceSeq, id := w.rows, w.counter, w.id;
    }

    /** `upsert_city`: a new city under a missing province violates the
        foreign key. */
    method UpsertCity(provinceId: int, name: string, code: Option<string>) returns (r: Result<int, DbError>)
      requires Valid()
      modifies this
      ensures Valid()
      ensures r.Err? <==> FirstWhere(old(cities), ByKey(provinceId, name)).None? && !HasId(old(provinces), provinceId)
      ensures r.Err? ==> cities == old(cities) && citySeq == old(citySeq)
      ensures r.Ok? ==> var w := Upsert(old(cities), old(citySeq), provinceId, name, code, None, None);
        cities == w.rows && citySeq == w.counter && r.value == w.id
      ensures provinces == old(provinces) && districts == old(districts) && hospitals == old(hospitals) && tasks == old(tasks)
    {
      if FirstWhere(cities, ByKey(provinceId, name)).None? && !HasId(provinces, provinceId) {
        return Err(IntegrityError);
      }
      var w := Upsert(cities, citySeq, provinceId, name, code, None, None);
      UpsertOk(cities, citySeq, provinceId, name, code, None, None);
      if FirstWhere(cities, ByKey(provinceId, name)).Some? {
        ExistingKeyHasParent(cities, provinces, provinceId, name);
      }
      ParentsExtend(cities, w.rows, provinces);
      ParentsKept(districts, cities, w.rows);
      CitiesSwap(Tables(provinces, cities, districts, hospitals, provinceSeq, citySeq, districtSeq, hospitalSeq),
                 tasks, w.rows, w.counter);
      cities, citySeq := w.rows, w.counter;
      r := Ok(w.id);
    }

    /** `upsert_district`. */
    method UpsertDistrict(cityId: int, name: string, code: Option<string>) returns (r: Result<int, DbError>)
      requires Valid()
      modifies this
      ensures Valid()
      ensures r.Err? <==> FirstWhere(old(districts), ByKey(cityId, name)).None? && !HasId(old(cities), cityId)
      ensures r.Err? ==> districts == old(districts) && districtSeq == old(districtSeq)
      ensures r.Ok? ==> var w := Upsert(old(districts), old(districtSeq), cityId, name, code, None, None);
        districts == w.rows && districtSeq == w.counter && r.value == w.id
      ensures provinces == old(provinces) && cities == old(cities) && hospitals == old(hospitals) && tasks == old(tasks)
    {
      if FirstWhere(districts, ByKey(cityId, name)).None? && !HasId(cities, cityId) {
        return Err(IntegrityError);
      }
      var w := Upsert(districts, districtSeq, cityId, name, code, None, None);
      UpsertOk(districts, districtSeq, cityId, name, code, None, None);
      if FirstWhere(districts, ByKey(cityId, name)).Some? {
        ExistingKeyHasParent(districts, cities, cityId, name);
      }
      ParentsExtend(districts, w.rows, cities);
      ParentsKept(hospitals, districts, w.rows);
      DistrictsSwap(Tables(provinces, cities, districts, hospitals, provinceSeq, citySeq, districtSeq, hospitalSeq),
                    tasks, w.rows, w.counter);
      districts, districtSeq := w.rows, w.counter;
      r := Ok(w.id);
    }

    /** `upsert_hospital`: website and confidence are coalesced. */
    method UpsertHospital(districtId: int, name: string, website: Option<string>, confidence: Option<real>)
      returns (r: Result<int, DbError>)
      requires Valid()
      modifies this
      ensures Valid()
      ensures r.Err? <==> FirstWhere(old(hospitals), ByKey(districtId, name)).None? && !HasId(old(districts), districtId)
      ensures r.Err? ==> hospitals == old(hospitals) && hospitalSeq == old(hospitalSeq)
      ensures r.Ok? ==> var w := Upsert(old(hospitals), old(hospitalSeq), districtId, name, None, website, confidence);
        hospitals == w.rows && hospitalSeq == w.counter && r.value == w.id
      ensures provinces == old(provinces) && cities == old(cities) && districts == old(districts) && tasks == old(tasks)
    {
      if FirstWhere(hospitals, ByKey(districtId, name)).None? && !HasId(districts, districtId) {
        return Err(IntegrityError);
      }
      var w := Upsert(hospitals, hospitalSeq, districtId, name, None, website, confidence);
      UpsertOk(hospitals, hospitalSeq, districtId, name, None, website, confidence);
      if FirstWhere(hospitals, ByKey(districtId, name)).Some? {
        ExistingKeyHasParent(hospitals, districts, districtId, name);
      }
      ParentsExtend(hospitals, w.rows, districts);
      HospitalsSwap(Tables(provinces, cities, districts, hospitals, provinceSeq, citySeq, districtSeq, hospitalSeq),
                    tasks, w.rows, w.counter);
      hospitals, hospitalSeq := w.rows, w.counter;
      r := Ok(w.id);
    }

    // -- create ----------------------------------------------------------

    /** `create_province`: a taken name raises. */
    method CreateProvince(name: string, code: Option<string>) returns (r: Result<int, DbError>)
      requires Valid()
      modifies this
      ensures Valid()
      ensures r.Err? <==> FirstWhere(old(provinces), ByKey(0, name)).Some?
      ensures r.Err? ==> provinces == old(provinces) && provinceSeq == old(provinceSeq)
      ensures r.Ok? ==> r.value == old(provinceSeq) + 1 && provinceSeq == r.value
                        && provinces == old(provinces) + [Row(r.value, 0, name, code, None, None)]
      ensures cities == old(cities) && districts == old(districts) && hospitals == old(hospitals) && tasks == old(tasks)
    {
      var ins := Insert(provinces, provinceSeq, 0, name, code, None, None);
      if ins.Err? {
        return Err(ins.error);
      }
      UpsertOk(provinces, provinceSeq, 0, name, code, None, None);
      ParentsKept(cities, provinces, ins.value.rows);
      ProvincesSwap(Tables(provinces, cities, districts, hospitals, provinceSeq, citySeq, districtSeq, hospitalSeq),
                    tasks, ins.value.rows, ins.value.counter);
      provinces, provinceSeq := ins.value.rows, ins.value.counter;
      r := Ok(ins.value.id);
    }

    /** `create_city`: a taken (province, name) key or a missing province raises. */
    method CreateCity(provinceId: int, name: string, code: Option<string>) returns (r: Result<int, DbError>)
      requires Valid()
      modifies this
      ensures Valid()
      ensures r.Err? <==> FirstWhere(old(cities), ByKey(provinceId, name)).Some? || !HasId(old(provinces), provinceId)
      ensures r.Err? ==> cities == old(cities) && citySeq == old(citySeq)
      ensures r.Ok? ==> r.value == old(citySeq) + 1 && citySeq == r.value
                        && cities == old(cities) + [Row(r.value, provinceId, name, code, None, None)]
      ensures provinces == old(provinces) && districts == old(districts) && hospitals == old(hospitals) && tasks == old(tasks)
    {
      var ins := Insert(cities, citySeq, provinceId, name, code, None, None);
      if ins.Err? || !HasId(provinces, provinceId) {
        return Err(IntegrityError);
      }
      UpsertOk(cities, citySeq, provinceId, name, code, None, None);
      ParentsKept(districts, cities, ins.value.rows);
      CitiesSwap(Tables(provinces, cities, districts, hospitals, provinceSeq, citySeq, districtSeq, hospitalSeq),
                 tasks, ins.value.rows, ins.value.counter);
      cities, citySeq := ins.value.rows, ins.value.counter;
      r := Ok(ins.value.id);
    }

    /** `create_district`. */
    method CreateDistrict(cityId: int, name: string, code: Option<string>) returns (r: Result<int, DbError>)
      requires Valid()
      modifies this
      ensures Valid()
      ensures r.Err? <==> FirstWhere(old(districts), ByKey(cityId, name)).Some? || !HasId(old(cities), cityId)
      ensures r.Err? ==> districts == old(districts) && districtSeq == old(districtSeq)
      ensures r.Ok? ==> r.value == old(districtSeq) + 1 && districtSeq == r.value
                        && districts == old(districts) + [Row(r.value, cityId, name, code, None, None)]
      ensures provinces == old(provinces) && cities == old(cities) && hospitals == old(hospitals) && tasks == old(tasks)
    {
      var ins := Insert(districts, districtSeq, cityId, name, code, None, None);
      if ins.Err? || !HasId(cities, cityId) {
        return Err(IntegrityError);
      }
      UpsertOk(districts, districtSeq, cityId, name, code, None, None);
      ParentsKept(hospitals, districts, ins.value.rows);
      DistrictsSwap(Tables(provinces, cities, districts, hospitals, provinceSeq, citySeq, districtSeq, hospitalSeq),
                    tasks, ins.value.rows, ins.value.counter);
      districts, districtSeq := ins.value.rows, ins.value.counter;
      r := Ok(ins.value.id);
    }

    /** `create_hospital`. */
    method CreateHospital(districtId: int, name: string, website: Option<string>, confidence: Option<real>)
      returns (r: Result<int, DbError>)
      requires Valid()
      modifies this
      ensures Valid()
      ensures r.Err? <==> FirstWhere(old(hospitals), ByKey(districtId, name)).Some? || !HasId(old(districts), districtId)
      ensures r.Err? ==> hospitals == old(hospitals) && hospitalSeq == old(hospitalSeq)
      ensures r.Ok? ==> r.value == old(hospitalSeq) + 1 && hospitalSeq == r.value
                        && hospitals == old(hospitals) + [Row(r.value, districtId, name, None, website, confidence)]
      ensures provinces == old(provinces) && cities == old(cities) && districts == old(districts) && tasks == old(tasks)
    {
      var ins := Insert(hospitals, hospitalSeq, districtId, name, None, website, confidence);
      if ins.Err? || !HasId(districts, districtId) {
        return Err(IntegrityError);
      }
      UpsertOk(hospitals, hospitalSeq, districtId, name, None, website, confidence);
      HospitalsSwap(Tables(provinces, cities, districts, hospitals, provinceSeq, citySeq, districtSeq, hospitalSeq),
                    tasks, ins.value.rows, ins.value.counter);
      hospitals, hospitalSeq := ins.value.rows, ins.value.counter;
      r := Ok(ins.value.id);
    }

    // -- get -------------------------------------------------------------

    /** `get_province`: by id when a non-zero id is given, else by name when a
        non-empty one is given, else by code; no selector gives None. */
    function GetProvince(id: Option<int>, name: Option<string>, code: Option<string>): (r: Option<Row>)
      reads this
      ensures r.Some? ==> r.value in provinces
      ensures r.Some? && Given(id) ==> r.value.id == id.value
      ensures r.Some? && !Given(id) && GivenText(name) ==> r.value.name == name.value
      ensures r.Some? && !Given(id) && !GivenText(name) ==> GivenText(code) && r.value.code == code
      ensures !Given(id) && !GivenText(name) && !GivenText(code) ==> r.None?
      ensures Given(id) && r.None? ==> !HasId(provinces, id.value)
      ensures Given(id) ==> r == Fetch(provinces, ById(id.value))
      ensures !Given(id) && GivenText(name) ==> r == Fetch(provinces, ByName(name.value))
      ensures !Given(id) && !GivenText(name) && GivenText(code) ==> r == Fetch(provinces, ByCode(code.value))
    {
      var s := if Given(id) then Some(ById(id.value))
               else if GivenText(name) then Some(ByName(name.value))
               else if GivenText(code) then Some(ByCode(code.value))
               else None;
      if s.None? then None else Fetch(provinces, s.value)
    }

    /** `get_city`: by id, else by province id and name when both are given,
        else by code. */
    function GetCity(id: Option<int>, provinceId: Option<int>, name: Option<string>, code: Option<string>): (r: Option<Row>)
      reads this
      ensures r.Some? ==> r.value in cities
      ensures r.Some? && Given(id) ==> r.value.id == id.value
      ensures r.Some? && !Given(id) && Given(provinceId) && GivenText(name) ==>
                r.value.parentId == provinceId.value && r.value.name == name.value
      ensures !Given(id) && !(Given(provinceId) && GivenText(name)) && !GivenText(code) ==> r.None?
      ensures Given(id) ==> r == Fetch(cities, ById(id.value))
      ensures !Given(id) && Given(provinceId) && GivenText(name) ==> r == Fetch(cities, ByKey(provinceId.value, name.value))
      ensures !Given(id) && !(Given(provinceId) && GivenText(name)) && GivenText(code) ==> r == Fetch(cities, ByCode(code.value))
    {
      ChildSelect(cities, id, provinceId, name, code)
    }

    /** `get_district`: as `get_city`, one level down. */
    function GetDistrict(id: Option<int>, cityId: Option<int>, name: Option<string>, code: Option<string>): (r: Option<Row>)
      reads this
      ensures r.Some? ==> r.value in districts
      ensures r.Some? && Given(id) ==> r.value.id == id.value
      ensures r.Some? && !Given(id) && Given(cityId) && GivenText(name) ==>
                r.value.parentId == cityId.value && r.value.name == name.value
      ensures !Given(id) && !(Given(cityId) && GivenText(name)) && !GivenText(code) ==> r.None?
      ensures Given(id) ==> r == Fetch(districts, ById(id.value))
      ensures !Given(id) && Given(cityId) && GivenText(name) ==> r == Fetch(districts, ByKey(cityId.value, name.value))
      ensures !Given(id) && !(Given(cityId) && GivenText(name)) && GivenText(code) ==> r == Fetch(districts, ByCode(code.value))
    {
      ChildSelect(districts, id, cityId, name, code)
    }

    /** `get_hospital`: by id, else by district id and name; there is no code
        selector. */
    function GetHospital(id: Option<int>, districtId: Option<int>, name: Option<string>): (r: Option<Row>)
      reads this
      ensures r.Some? ==> r.value in hospitals
      ensures r.Some? && Given(id) ==> r.value.id == id.value
      ensures r.Some? && !Given(id) ==> (Given(districtId) && GivenText(name)
                && r.value.parentId == districtId.value && r.value.name == name.value)
      ensures Given(id) ==> r == Fetch(hospitals, ById(id.value))
      ensures !Given(id) && Given(districtId) && GivenText(name) ==> r == Fetch(hospitals, ByKey(districtId.value, name.value))
    {
      ChildSelect(hospitals, id, districtId, name, None)
    }

    // -- update ----------------------------------------------------------

    method UpdateProvince(id: int, p: Patch) returns (r: Result<bool, DbError>)
      requires Valid()
      modifies this
      ensures Valid()
      ensures match Update(old(provinces), ProvinceLevel, id, p)
        case Err(e) => r == Err(e) && provinces == old(provinces)
        case Ok(u) => r == Ok(u.1) && provinces == u.0
      ensures r == Ok(true) <==> !EmptyPatch(p) && Fits(p, ProvinceLevel) && HasId(old(provinces), id) && r.Ok?
      ensures cities == old(cities) && districts == old(districts) && hospitals == old(hospitals) && tasks == old(tasks)
      ensures provinceSeq == old(provinceSeq)
    {
      var u := Update(provinces, ProvinceLevel, id, p);
      if u.Err? {
        return Err(u.error);
      }
      UpdateOk(provinces, provinceSeq, ProvinceLevel, id, p);
      ParentsKept(cities, provinces, u.value.0);
      ProvincesSwap(Tables(provinces, cities, districts, hospitals, provinceSeq, citySeq, districtSeq, hospitalSeq),
                    tasks, u.value.0, provinceSeq);
      provinces := u.value.0;
      r := Ok(u.value.1);
    }

    method UpdateCity(id: int, p: Patch) returns (r: Result<bool, DbError>)
      requires Valid()
      modifies this
      ensures Valid()
      ensures match Update(old(cities), CityLevel, id, p)
        case Err(e) => r == Err(e) && cities == old(cities)
        case Ok(u) => r == Ok(u.1) && cities == u.0
      ensures r == Ok(true) <==> !EmptyPatch(p) && Fits(p, CityLevel) && HasId(old(cities), id) && r.Ok?
      ensures provinces == old(provinces) && districts == old(districts) && hospitals == old(hospitals) && tasks == old(tasks)
      ensures citySeq == old(citySeq)
    {
      var u := Update(cities, CityLevel, id, p);
      if u.Err? {
        return Err(u.error);
      }
      UpdateOk(cities, citySeq, CityLevel, id, p);
      ParentsKept(districts, cities, u.value.0);
      ParentsExtend(cities, u.value.0, provinces);
      CitiesSwap(Tables(provinces, cities, districts, hospitals, provinceSeq, citySeq, districtSeq, hospitalSeq),
                 tasks, u.value.0, citySeq);
      cities := u.value.0;
      r := Ok(u.value.1);
    }

    method UpdateDistrict(id: int, p: Patch) returns (r: Result<bool, DbError>)
      requires Valid()
      modifies this
      ensures Valid()
      ensures match Update(old(districts), DistrictLevel, id, p)
        case Err(e) => r == Err(e) && districts == old(districts)
        case Ok(u) => r == Ok(u.1) && districts == u.0
      ensures r == Ok(true) <==> !EmptyPatch(p) && Fits(p, DistrictLevel) && HasId(old(districts), id) && r.Ok?
      ensures provinces == old(provinces) && cities == old(cities) && hospitals == old(hospitals) && tasks == old(tasks)
      ensures districtSeq == old(districtSeq)
    {
      var u := Update(districts, DistrictLevel, id, p);
      if u.Err? {
        return Err(u.error);
      }
      UpdateOk(districts, districtSeq, DistrictLevel, id, p);
      ParentsKept(hospitals, districts, u.value.0);
      ParentsExtend(districts, u.value.0, cities);
      DistrictsSwap(Tables(provinces, cities, districts, hospitals, provinceSeq, citySeq, districtSeq, hospitalSeq),
                    tasks, u.value.0, districtSeq);
      districts := u.value.0;
      r := Ok(u.value.1);
    }

    method UpdateHospital(id: int, p: Patch) returns (r: Result<bool, DbError>)
      requires Valid()
      modifies this
      ensures Valid()
      ensures match Update(old(hospitals), HospitalLevel, id, p)
        case Err(e) => r == Err(e) && hospitals == old(hospitals)
        case Ok(u) => r == Ok(u.1) && hospitals == u.0
      ensures r == Ok(true) <==> !EmptyPatch(p) && Fits(p, HospitalLevel) && HasId(old(hospitals), id) && r.Ok?
      ensures provinces == old(provinces) && cities == old(cities) && districts == old(districts) && tasks == old(tasks)
      ensures hospitalSeq == old(hospitalSeq)
    {
      var u := Update(hospitals, HospitalLevel, id, p);
      if u.Err? {
        return Err(u.error);
      }
      UpdateOk(hospitals, hospitalSeq, HospitalLevel, id, p);
      ParentsExtend(hospitals, u.value.0, districts);
      HospitalsSwap(Tables(provinces, cities, districts, hospitals, provinceSeq, citySeq, districtSeq, hospitalSeq),
                    tasks, u.value.0, hospitalSeq);
      hospitals := u.value.0;
      r := Ok(u.value.1);
    }

    // -- delete ----------------------------------------------------------

    method DeleteProvince(id: int) returns (r: Result<bool, DbError>)
      requires Valid()
      modifies this
      ensures Valid()
      ensures match Delete(old(provinces), old(cities), id)
        case Err(e) => r == Err(e) && provinces == old(provinces)
        case Ok(u) => r == Ok(u.1) && provinces == u.0
      ensures cities == old(cities) && districts == old(districts) && hospitals == old(hospitals) && tasks == old(tasks)
      ensures provinceSeq == old(provinceSeq)
    {
      var u := Delete(provinces, cities, id);
      if u.Err? {
        return Err(u.error);
      }
      DeleteOk(provinces, provinceSeq, cities, id);
      SubTableNoParent(provinces, u.value.0);
      ProvincesSwap(Tables(provinces, cities, districts, hospitals, provinceSeq, citySeq, districtSeq, hospitalSeq),
                    tasks, u.value.0, provinceSeq);
      provinces := u.value.0;
      r := Ok(u.value.1);
    }

    method DeleteCity(id: int) returns (r: Result<bool, DbError>)
      requires Valid()
      modifies this
      ensures Valid()
      ensures match Delete(old(cities), old(districts), id)
        case Err(e) => r == Err(e) && cities == old(cities)
        case Ok(u) => r == Ok(u.1) && cities == u.0
      ensures provinces == old(provinces) && districts == old(districts) && hospitals == old(hospitals) && tasks == old(tasks)
      ensures citySeq == old(citySeq)
    {
      var u := Delete(cities, districts, id);
      if u.Err? {
        return Err(u.error);
      }
      DeleteOk(cities, citySeq, districts, id);
      SubTableParents(cities, u.value.0, provinces);
      CitiesSwap(Tables(provinces, cities, districts, hospitals, provinceSeq, citySeq, districtSeq, hospitalSeq),
                 tasks, u.value.0, citySeq);
      cities := u.value.0;
      r := Ok(u.value.1);
    }

    method DeleteDistrict(id: int) returns (r: Result<bool, DbError>)
      requires Valid()
      modifies this
      ensures Valid()
      ensures match Delete(old(districts), old(hospitals), id)
        case Err(e) => r == Err(e) && districts == old(districts)
        case Ok(u) => r == Ok(u.1) && districts == u.0
      ensures provinces == old(provinces) && cities == old(cities) && hospitals == old(hospitals) && tasks == old(tasks)
      ensures districtSeq == old(districtSeq)
    {
      var u := Delete(districts, hospitals, id);
      if u.Err? {
        return Err(u.error);
      }
      DeleteOk(districts, districtSeq, hospitals, id);
      SubTableParents(districts, u.value.0, cities);
      DistrictsSwap(Tables(provinces, cities, districts, hospitals, provinceSeq, citySeq, districtSeq, hospitalSeq),
                    tasks, u.value.0, districtSeq);
      districts := u.value.0;
      r := Ok(u.value.1);
    }

    /** `delete_hospital`: nothing points at a hospital, so it never raises. */
    method DeleteHospital(id: int) returns (found: bool)
      requires Valid()
      modifies this
      ensures Valid()
      ensures Delete(old(hospitals), [], id) == Ok((hospitals, found))
      ensures found <==> HasId(old(hospitals), id)
      ensures !HasId(hospitals, id)
      ensures provinces == old(provinces) && cities == old(cities) && districts == old(districts) && tasks == old(tasks)
      ensures hospitalSeq == old(hospitalSeq)
    {
      var u := Delete(hospitals, [], id);
      DeleteOk(hospitals, hospitalSeq, [], id);
      SubTableParents(hospitals, u.value.0, districts);
      HospitalsSwap(Tables(provinces, cities, districts, hospitals, provinceSeq, citySeq, districtSeq, hospitalSeq),
                    tasks, u.value.0, hospitalSeq);
      hospitals := u.value.0;
      found := u.value.1;
    }

    // -- batches ---------------------------------------------------------

    /** `batch_create_provinces`: an item without a name key raises and the
        whole batch is rolled back. */
    method BatchCreateProvinces(items: seq<Item>) returns (r: Result<seq<int>, DbError>)
      requires Valid()
      modifies this
      ensures Valid()
      ensures var b := Batch(old(provinces), old(provinceSeq), ProvinceLevel, [], items);
        match b
        case Err(e) => r == Err(e) && provinces == old(provinces) && provinceSeq == old(provinceSeq)
        case Ok(v) => r == Ok(v.ids) && provinces == v.rows && provinceSeq == v.counter
      ensures cities == old(cities) && districts == old(districts) && hospitals == old(hospitals) && tasks == old(tasks)
    {
      var b := RunBatch(provinces, provinceSeq, ProvinceLevel, [], items);
      if b.Err? {
        return Err(b.error);
      }
      ProvinceBatchKeeps(Tables(provinces, cities, districts, hospitals, provinceSeq, citySeq, districtSeq, hospitalSeq),
                         tasks, items);
      provinces, provinceSeq := b.value.rows, b.value.counter;
      r := Ok(b.value.ids);
    }

    /** `batch_create_cities`: an item under a missing province raises and
        the whole batch is rolled back. */
    method BatchCreateCities(items: seq<Item>) returns (r: Result<seq<int>, DbError>)
      requires Valid()
      modifies this
      ensures Valid()
      ensures var b := Batch(old(cities), old(citySeq), CityLevel, old(provinces), items);
        match b
        case Err(e) => r == Err(e) && cities == old(cities) && citySeq == old(citySeq)
        case Ok(v) => r == Ok(v.ids) && cities == v.rows && citySeq == v.counter
      ensures provinces == old(provinces) && districts == old(districts) && hospitals == old(hospitals) && tasks == old(tasks)
    {
      var b := RunBatch(cities, citySeq, CityLevel, provinces, items);
      if b.Err? {
        return Err(b.error);
      }
      BatchGrows(cities, citySeq, CityLevel, provinces, items);
      PrefixIds(cities, b.value.rows);
      ParentsKept(districts, cities, b.value.rows);
      PrefixParents(cities, b.value.rows, provinces);
      CitiesSwap(Tables(provinces, cities, districts, hospitals, provinceSeq, citySeq, districtSeq, hospitalSeq),
                 tasks, b.value.rows, b.value.counter);
      cities, citySeq := b.value.rows, b.value.counter;
      r := Ok(b.value.ids);
    }

    /** `batch_create_districts`. */
    method BatchCreateDistricts(items: seq<Item>) returns (r: Result<seq<int>, DbError>)
      requires Valid()
      modifies this
      ensures Valid()
      ensures var b := Batch(old(districts), old(districtSeq), DistrictLevel, old(cities), items);
        match b
        case Err(e) => r == Err(e) && districts == old(districts) && districtSeq == old(districtSeq)
        case Ok(v) => r == Ok(v.ids) && districts == v.rows && districtSeq == v.counter
      ensures provinces == old(provinces) && cities == old(cities) && hospitals == old(hospitals) && tasks == old(tasks)
    {
      var b := RunBatch(districts, districtSeq, DistrictLevel, cities, items);
      if b.Err? {
        return Err(b.error);
      }
      BatchGrows(districts, districtSeq, DistrictLevel, cities, items);
      PrefixIds(districts, b.value.rows);
      ParentsKept(hospitals, districts, b.value.rows);
      PrefixParents(districts, b.value.rows, cities);
      DistrictsSwap(Tables(provinces, cities, districts, hospitals, provinceSeq, citySeq, districtSeq, hospitalSeq),
                    tasks, b.value.rows, b.value.counter);
      districts, districtSeq := b.value.rows, b.value.counter;
      r := Ok(b.value.ids);
    }

    /** `batch_create_hospitals`. */
    method BatchCreateHospitals(items: seq<Item>) returns (r: Result<seq<int>, DbError>)
      requires Valid()
      modifies this
      ensures Valid()
      ensures var b := Batch(old(hospitals), old(hospitalSeq), HospitalLevel, old(districts), items);
        match b
        case Err(e) => r == Err(e) && hospitals == old(hospitals) && hospitalSeq == old(hospitalSeq)
        case Ok(v) => r == Ok(v.ids) && hospitals == v.rows && hospitalSeq == v.counter
      ensures provinces == old(provinces) && cities == old(cities) && districts == old(districts) && tasks == old(tasks)
    {
      var b := RunBatch(hospitals, hospitalSeq, HospitalLevel, districts, items);
      if b.Err? {
        return Err(b.error);
      }
      BatchGrows(hospitals, hospitalSeq, HospitalLevel, districts, items);
      PrefixParents(hospitals, b.value.rows, districts);
      HospitalsSwap(Tables(provinces, cities, districts, hospitals, provinceSeq, citySeq, districtSeq, hospitalSeq),
                    tasks, b.value.rows, b.value.counter);
      hospitals, hospitalSeq := b.value.rows, b.value.counter;
      r := Ok(b.value.ids);
    }

    // -- paged listings --------------------------------------------------

    /** `get_all_provinces`. */
    function GetAllProvinces(page: int, pageSize: int): (r: Result<Page, DbError>)
      reads this
      ensures r.Err? <==> pageSize == 0
      ensures r.Ok? ==> r.value.total == |provinces| && |r.value.items| <= |provinces|
      ensures r == Paged(provinces, page, pageSize)
    {
      Paged(provinces, page, pageSize)
    }

    /** `get_cities_by_province`: the province is the first whose name or
        code equals the argument; none gives the empty page. */
    function GetCitiesByProvince(province: string, page: int, pageSize: int): (r: Result<Page, DbError>)
      reads this
      ensures FirstWhere(provinces, ByNameOrCode(province)).None? ==> r == Ok(NoPage(page, pageSize))
      ensures FirstWhere(provinces, ByNameOrCode(province)).Some? ==>
                r == Paged(Where(cities, ByParent(provinces[FirstWhere(provinces, ByNameOrCode(province)).value].id)),
                           page, pageSize)
    {
      match FirstWhere(provinces, ByNameOrCode(province))
      case None => Ok(NoPage(page, pageSize))
      case Some(i) => Paged(Where(cities, ByParent(provinces[i].id)), page, pageSize)
    }

    /** `get_districts_by_city`. */
    function GetDistrictsByCity(city: string, page: int, pageSize: int): (r: Result<Page, DbError>)
      reads this
      ensures FirstWhere(cities, ByNameOrCode(city)).None? ==> r == Ok(NoPage(page, pageSize))
      ensures FirstWhere(cities, ByNameOrCode(city)).Some? ==>
                r == Paged(Where(districts, ByParent(cities[FirstWhere(cities, ByNameOrCode(city)).value].id)),
                           page, pageSize)
    {
      match FirstWhere(cities, ByNameOrCode(city))
      case None => Ok(NoPage(page, pageSize))
      case Some(i) => Paged(Where(districts, ByParent(cities[i].id)), page, pageSize)
    }

    /** `get_hospitals_by_district`. */
    function GetHospitalsByDistrict(district: string, page: int, pageSize: int): (r: Result<Page, DbError>)
      reads this
      ensures FirstWhere(districts, ByNameOrCode(district)).None? ==> r == Ok(NoPage(page, pageSize))
      ensures FirstWhere(districts, ByNameOrCode(district)).Some? ==>
                r == Paged(Where(hospitals, ByParent(districts[FirstWhere(districts, ByNameOrCode(district)).value].id)),
                           page, pageSize)
    {
      match FirstWhere(districts, ByNameOrCode(district))
      case None => Ok(NoPage(page, pageSize))
      case Some(i) => Paged(Where(hospitals, ByParent(districts[i].id)), page, pageSize)
    }

    /** `get_cities_by_province_id`, `get_districts_by_city_id` and
        `get_hospitals_by_district_id`: the children of one parent id, an
        unknown id giving an empty list. */
    function GetChildrenById(level: Level, parentId: int, page: int, pageSize: int): (r: Result<Page, DbError>)
      reads this
      requires level != ProvinceLevel
      ensures r.Err? <==> pageSize == 0
      ensures r.Ok? ==> forall x :: x in r.value.items ==> x.parentId == parentId
      ensures r == Paged(Where(if level == CityLevel then cities else if level == DistrictLevel then districts else hospitals,
                               ByParent(parentId)), page, pageSize)
    {
      var rows := if level == CityLevel then cities else if level == DistrictLevel then districts else hospitals;
      PagedChildren(rows, parentId, page, pageSize);
      Paged(Where(rows, ByParent(parentId)), page, pageSize)
    }

    // -- tasks -----------------------------------------------------------

    /** `create_task`: a taken id violates the primary key. */
    method CreateTask(id: string, scope: string, status: string, progress: real, error: Option<string>)
      returns (r: Result<bool, DbError>)
      requires Valid()
      modifies this
      ensures Valid()
      ensures r.Err? <==> id in old(tasks)
      ensures r.Ok? ==> r.value && tasks == old(tasks)[id := TaskRow(id, scope, status, progress, error)]
      ensures r.Err? ==> tasks == old(tasks)
      ensures provinces == old(provinces) && cities == old(cities) && districts == old(districts) && hospitals == old(hospitals)
    {
      if id in tasks {
        return Err(IntegrityError);
      }
      tasks := tasks[id := TaskRow(id, scope, status, progress, error)];
      r := Ok(true);
    }

    function GetTask(id: string): (r: Option<TaskRow>)
      reads this
      ensures r.Some? <==> id in tasks
      ensures r.Some? ==> r.value == tasks[id]
    {
      if id in tasks then Some(tasks[id]) else None
    }

    /** `update_task`: no keyword arguments gives False; otherwise the row is
        rewritten if it exists. */
    method UpdateTask(id: string, p: TaskPatch) returns (found: bool)
      requires Valid()
      modifies this
      ensures Valid()
      ensures found <==> !EmptyTaskPatch(p) && id in old(tasks)
      ensures found ==> tasks == old(tasks)[id := PatchedTask(old(tasks[id]), p)]
      ensures !found ==> tasks == old(tasks)
      ensures provinces == old(provinces) && cities == old(cities) && districts == old(districts) && hospitals == old(hospitals)
    {
      if EmptyTaskPatch(p) || id !in tasks {
        return false;
      }
      tasks := tasks[id := PatchedTask(tasks[id], p)];
      found := true;
    }

    method DeleteTask(id: string) returns (found: bool)
      requires Valid()
      modifies this
      ensures Valid()
      ensures found <==> id in old(tasks)
      ensures tasks == old(tasks) - {id}
      ensures provinces == old(provinces) && cities == old(cities) && districts == old(districts) && hospitals == old(hospitals)
    {
      found := id in tasks;
      tasks := tasks - {id};
    }
  }

  /** The INSERT OR IGNORE loop of `batch_create_*`, on a copy of the table
      that becomes the table only if no statement raised. */
  method RunBatch(rows: seq<Row>, counter: int, level: Level, parents: seq<Row>, items: seq<Item>)
    returns (r: Result<Batched, DbError>)
    ensures r == Batch(rows, counter, level, parents, items)
  {
    var b := Batched(rows, counter, []);
    var i := 0;
    while i < |items|
      invariant 0 <= i <= |items|
      invariant Batch(rows, counter, level, parents, items[..i]) == Ok(b)
    {
      assert items[..i + 1][..i] == items[..i];
      var it := items[i];
      if !Subscriptable(level, it) {
        BatchStopsAtError(rows, counter, level, parents, items, i + 1);
        return Err(KeyError);
      }
      match ItemKey(level, it) {
        case None =>
        case Some(key) =>
          match FirstWhere(b.rows, ByKey(key.0, key.1)) {
            case Some(k) =>
              b := b.(ids := b.ids + [b.rows[k].id]);
            case None =>
              if level != ProvinceLevel && !HasId(parents, key.0) {
                BatchStopsAtError(rows, counter, level, parents, items, i + 1);
                return Err(IntegrityError);
              }
              var id := b.counter + 1;
              b := Batched(b.rows + [ItemRow(level, id, key, it)], id, b.ids + [id]);
          }
      }
      i := i + 1;
    }
    assert items[..i] == items;
    r := Ok(b);
  }

  /** Once a prefix of the batch raised, the whole batch raises. */
  lemma {:induction false} BatchStopsAtError(rows: seq<Row>, counter: int, level: Level, parents: seq<Row>,
                                             items: seq<Item>, j: nat)
    requires j <= |items| && Batch(rows, counter, level, parents, items[..j]).Err?
    ensures Batch(rows, counter, level, parents, items) == Batch(rows, counter, level, parents, items[..j])
    decreases |items| - j
  {
    if j < |items| {
      assert items[..j + 1][..j] == items[..j];
      BatchStopsAtError(rows, counter, level, parents, items, j + 1);
    } else {
      assert items[..j] == items;
    }
  }

  predicate Given(id: Option<int>) { id.Some? && id.value != 0 }
  predicate GivenText(s: Option<string>) { s.Some? && s.value != [] }

  /** The first row matching a selector. */
  function Fetch(rows: seq<Row>, s: Sel): (r: Option<Row>)
    ensures r.Some? ==> r.value in rows && Matches(r.value, s)
    ensures r.None? <==> forall j :: 0 <= j < |rows| ==> !Matches(rows[j], s)
  {
    match FirstWhere(rows, s)
    case None => None
    case Some(i) => Some(rows[i])
  }

  /** The selector cascade of `get_city`, `get_district` and `get_hospital`. */
  function ChildSelect(rows: seq<Row>, id: Option<int>, parentId: Option<int>, name: Option<string>, code: Option<string>)
    : (r: Option<Row>)
    ensures r.Some? ==> r.value in rows
    ensures r.Some? && Given(id) ==> r.value.id == id.value
    ensures r.Some? && !Given(id) && Given(parentId) && GivenText(name) ==>
              r.value.parentId == parentId.value && r.value.name == name.value
    ensures r.Some? && !Given(id) && !(Given(parentId) && GivenText(name)) ==> GivenText(code) && r.value.code == code
    ensures !Given(id) && !(Given(parentId) && GivenText(name)) && !GivenText(code) ==> r.None?
    ensures Given(id) ==> r == Fetch(rows, ById(id.value))
    ensures !Given(id) && Given(parentId) && GivenText(name) ==> r == Fetch(rows, ByKey(parentId.value, name.value))
    ensures !Given(id) && !(Given(parentId) && GivenText(name)) && GivenText(code) ==> r == Fetch(rows, ByCode(code.value))
  {
    if Given(id) then Fetch(rows, ById(id.value))
    else if Given(parentId) && GivenText(name) then Fetch(rows, ByKey(parentId.value, name.value))
    else if GivenText(code) then Fetch(rows, ByCode(code.value))
    else None
  }

  /** A key that is taken belongs to a row whose parent exists. */
  lemma ExistingKeyHasParent(rows: seq<Row>, parents: seq<Row>, parentId: int, name: string)
    requires ParentsIn(rows, parents)
    requires FirstWhere(rows, ByKey(parentId, name)).Some?
    ensures HasId(parents, parentId)
  {
    var i := FirstWhere(rows, ByKey(parentId, name)).value;
    assert rows[i].parentId == parentId;
  }

  lemma PrefixIds(a: seq<Row>, b: seq<Row>)
    requires |a| <= |b| && b[..|a|] == a
    ensures Ids(b)[..|a|] == Ids(a)
  {
    assert forall i :: 0 <= i < |a| ==> b[i] == a[i];
  }

  /** The foreign key survives a parent table whose ids only grow. */
  lemma ParentsKept(rows: seq<Row>, a: seq<Row>, b: seq<Row>)
    requires ParentsIn(rows, a) && |a| <= |b| && Ids(b)[..|a|] == Ids(a)
    ensures ParentsIn(rows, b)
  {
    forall i | 0 <= i < |rows| ensures rows[i].parentId in Ids(b) {
      var k :| 0 <= k < |a| && Ids(a)[k] == rows[i].parentId;
      assert Ids(b)[k] == Ids(a)[k];
    }
  }

  lemma PrefixParents(a: seq<Row>, b: seq<Row>, parents: seq<Row>)
    requires ParentsIn(a, parents) && |a| <= |b| && b[..|a|] == a
    requires forall i :: |a| <= i < |b| ==> b[i].parentId in Ids(parents)
    ensures ParentsIn(b, parents)
  {
    forall i | 0 <= i < |b| ensures b[i].parentId in Ids(parents) {
      if i < |a| {
        assert b[i] == a[i];
      }
    }
  }

  /** The foreign key holds for a table whose old rows keep their parents
      and whose new rows have existing ones. */
  lemma ParentsExtend(a: seq<Row>, b: seq<Row>, parents: seq<Row>)
    requires ParentsIn(a, parents) && |a| <= |b|
    requires forall i :: 0 <= i < |a| ==> b[i].parentId == a[i].parentId
    requires forall i :: |a| <= i < |b| ==> b[i].parentId in Ids(parents)
    ensures ParentsIn(b, parents)
  {
  }

  /** Dropping rows keeps the provinces' parent ids 0. */
  lemma SubTableNoParent(a: seq<Row>, b: seq<Row>)
    requires forall i :: 0 <= i < |a| ==> a[i].parentId == 0
    requires forall x :: x in b ==> x in a
    ensures forall i :: 0 <= i < |b| ==> b[i].parentId == 0
  {
    forall i | 0 <= i < |b| ensures b[i].parentId == 0 {
      assert b[i] in a;
    }
  }

  /** Dropping rows keeps the foreign key of the rest. */
  lemma SubTableParents(a: seq<Row>, b: seq<Row>, parents: seq<Row>)
    requires ParentsIn(a, parents)
    requires forall x :: x in b ==> x in a
    ensures ParentsIn(b, parents)
  {
    forall i | 0 <= i < |b| ensures b[i].parentId in Ids(parents) {
      assert b[i] in a;
      var j :| 0 <= j < |a| && a[j] == b[i];
    }
  }

  /** A page of the children of one parent holds only rows under that parent. */
  lemma PagedChildren(rows: seq<Row>, parentId: int, page: int, pageSize: int)
    ensures var p := Paged(Where(rows, ByParent(parentId)), page, pageSize);
      p.Ok? ==> forall x :: x in p.value.items ==> x.parentId == parentId
  {
    PagedMembers(Where(rows, ByParent(parentId)), page, pageSize);
  }

  lemma PagedMembers(rows: seq<Row>, page: int, pageSize: int)
    ensures Paged(rows, page, pageSize).Ok? ==> forall x :: x in Paged(rows, page, pageSize).value.items ==> x in rows
  {
    if pageSize != 0 {
      var sorted := Listing.SortByName(rows, Name);
      Listing.SortByNameSorted(rows, Name);
      Listing.WindowOfSorted(sorted, Name, (page - 1) * pageSize, pageSize);
      Listing.SameMembers(sorted, rows);
    }
  }
}
