/** `flatten` and `unflatten` of src/shared/utils/object.utils.ts */
module ObjectUtils {
  import opened Wrappers
  import opened Text

  const UNSAFE_KEYS := {"__proto__", "prototype", "constructor"}

  /** The key under which an object inherits an accessor from `Object.prototype`. */
  const PROTO := "__proto__"

  /**
   * A plain record, or anything else. Of another value that becomes the prototype of an output object it
   * is taken that its properties can be assigned in the object that inherits them.
   */
  datatype Json = Leaf(value: string) | Rec(fields: map<string, Json>)

  /** What `flatten` descends into: a plain record that is not empty. */
  predicate Inner(t: Json) {
    t.Rec? && t.fields != map[]
  }

  type Path = seq<string>

  // ----- Paths ---------------------------------------------------------------------------------

  /** The key paths from `t` to its leaves and empty records. */
  ghost function Paths(t: Json): set<Path>
    decreases t, 0
  {
    if Inner(t) then set k, p | k in t.fields && p in Paths(t.fields[k]) :: [k] + p else {[]}
  }

  ghost function FieldPaths(fields: map<string, Json>): set<Path> {
    set k, p | k in fields && p in Paths(fields[k]) :: [k] + p
  }

  /** What `t` holds at a path. */
  ghost function At(t: Json, p: Path): Json
    decreases |p|
  {
    if p == [] then t
    else if t.Rec? && p[0] in t.fields then At(t.fields[p[0]], p[1..])
    else Leaf("")
  }

  predicate GoodKey(key: string, sep: char) {
    key != "" && sep !in key
  }

  /** All keys are non-empty and free of the separator. */
  ghost predicate GoodKeys(t: Json, sep: char)
    decreases t
  {
    t.Rec? ==> forall k :: k in t.fields ==> GoodKey(k, sep) && GoodKeys(t.fields[k], sep)
  }

  ghost predicate GoodPath(p: Path, sep: char) {
    forall i :: 0 <= i < |p| ==> GoodKey(p[i], sep)
  }

  lemma {:induction false} PathsGood(t: Json, sep: char, p: Path)
    requires GoodKeys(t, sep) && p in Paths(t)
    ensures GoodPath(p, sep)
    decreases t
  {
    if Inner(t) {
      var k, q :| k in t.fields && q in Paths(t.fields[k]) && p == [k] + q;
      PathsGood(t.fields[k], sep, q);
    }
  }

  /** Distinct paths never collide: a good path is read back from its joined form. */
  lemma SplitOfJoin(p: Path, sep: char)
    requires p != [] && GoodPath(p, sep)
    ensures Split(Join(p, sep), sep) == p && Join(p, sep) != ""
  {
    assert Split("", sep) == [""] && p[0] != "";
    SplitJoin(p, sep);
  }

  lemma {:induction false} JoinLast(p: Path, key: string, sep: char)
    requires p != []
    ensures Join(p + [key], sep) == Join(p, sep) + [sep] + key
  {
    if |p| == 1 {
      assert p + [key] == [p[0], key];
      assert [p[0], key][1..] == [key];
    } else {
      JoinLast(p[1..], key, sep);
      assert (p + [key])[1..] == p[1..] + [key];
    }
  }

  // ----- flatten -------------------------------------------------------------------------------

  /**
   * `m` is the flat form of the record with these fields at path `at`: each leaf and each empty record
   * below it under its joined path, and nothing else.
   */
  ghost predicate IsFlat(m: map<string, Json>, fields: map<string, Json>, at: Path, sep: char) {
    && (forall p :: p in FieldPaths(fields) ==>
          at + p != [] && Join(at + p, sep) in m && m[Join(at + p, sep)] == At(Rec(fields), p))
    && (forall s :: s in m ==> exists p :: p in FieldPaths(fields) && at + p != [] && s == Join(at + p, sep))
  }

  /** `m` is what visiting the entry that holds `child`, at path `at`, adds. */
  ghost predicate IsEntry(m: map<string, Json>, child: Json, at: Path, sep: char) {
    at != [] && if Inner(child) then IsFlat(m, child.fields, at, sep) else m == map[Join(at, sep) := child]
  }

  lemma EntryMeaning(m: map<string, Json>, child: Json, at: Path, sep: char)
    requires IsEntry(m, child, at, sep)
    ensures forall q :: q in Paths(child) ==> Join(at + q, sep) in m && m[Join(at + q, sep)] == At(child, q)
    ensures forall s :: s in m ==> exists q :: q in Paths(child) && s == Join(at + q, sep)
  {
    if Inner(child) {
      assert Paths(child) == FieldPaths(child.fields);
    } else {
      assert at + [] == at;
      assert forall s :: s in m ==> [] in Paths(child) && s == Join(at + [], sep);
    }
  }

  /** A further entry extends the flat form without touching what is there. */
  lemma FlatExtended(m: map<string, Json>, c: map<string, Json>, fields: map<string, Json>, key: string, child: Json,
                     at: Path, sep: char)
    requires IsFlat(m, fields, at, sep) && IsEntry(c, child, at + [key], sep) && key !in fields
    requires GoodPath(at, sep) && GoodKeys(Rec(fields), sep) && GoodKey(key, sep) && GoodKeys(child, sep)
    ensures IsFlat(m + c, fields[key := child], at, sep)
  {
    var more := fields[key := child];
    forall p | p in FieldPaths(more)
      ensures at + p != [] && Join(at + p, sep) in m + c && (m + c)[Join(at + p, sep)] == At(Rec(more), p)
    {
      EntryFound(m, c, fields, key, child, at, sep, p);
    }
    forall s | s in m + c
      ensures exists p :: p in FieldPaths(more) && at + p != [] && s == Join(at + p, sep)
    {
      var p := EntryOrigin(m, c, fields, key, child, at, sep, s);
    }
  }

  lemma EntryFound(m: map<string, Json>, c: map<string, Json>, fields: map<string, Json>, key: string, child: Json,
                   at: Path, sep: char, p: Path)
    requires IsFlat(m, fields, at, sep) && IsEntry(c, child, at + [key], sep) && key !in fields
    requires GoodPath(at, sep) && GoodKeys(Rec(fields), sep) && GoodKey(key, sep) && GoodKeys(child, sep)
    requires p in FieldPaths(fields[key := child])
    ensures at + p != [] && Join(at + p, sep) in m + c
    ensures (m + c)[Join(at + p, sep)] == At(Rec(fields[key := child]), p)
  {
    var k, q := FirstKey(fields[key := child], p);
    if k == key {
      NewEntryFound(c, child, at, key, sep, q);
      AtFirst(fields[key := child], k, q);
    } else {
      OldEntryFound(fields, fields[key := child], k, q);
      NoCollision(c, child, fields, key, p, at, sep);
    }
  }

  lemma FirstKey(fields: map<string, Json>, p: Path) returns (k: string, q: Path)
    requires p in FieldPaths(fields)
    ensures k in fields && q in Paths(fields[k]) && p == [k] + q
  {
    k, q :| k in fields && q in Paths(fields[k]) && p == [k] + q;
  }

  lemma AtFirst(fields: map<string, Json>, k: string, q: Path)
    requires k in fields
    ensures At(Rec(fields), [k] + q) == At(fields[k], q)
  {
    assert ([k] + q)[1..] == q;
  }

  lemma NewEntryFound(c: map<string, Json>, child: Json, at: Path, key: string, sep: char, q: Path)
    requires IsEntry(c, child, at + [key], sep) && q in Paths(child)
    ensures Join(at + ([key] + q), sep) in c && c[Join(at + ([key] + q), sep)] == At(child, q)
  {
    hide IsEntry, Join, Paths;
    EntryMeaning(c, child, at + [key], sep);
    assert at + ([key] + q) == at + [key] + q;
  }

  lemma OldEntryFound(fields: map<string, Json>, more: map<string, Json>, k: string, q: Path)
    requires k in fields && k in more && more[k] == fields[k] && q in Paths(fields[k])
    ensures [k] + q in FieldPaths(fields) && [k] + q in FieldPaths(more)
    ensures At(Rec(more), [k] + q) == At(Rec(fields), [k] + q)
  {
    AtFirst(fields, k, q);
    AtFirst(more, k, q);
  }

  lemma EntryOrigin(m: map<string, Json>, c: map<string, Json>, fields: map<string, Json>, key: string, child: Json,
                    at: Path, sep: char, s: string)
    returns (p: Path)
    requires IsFlat(m, fields, at, sep) && IsEntry(c, child, at + [key], sep) && key !in fields && s in m + c
    ensures p in FieldPaths(fields[key := child]) && at + p != [] && s == Join(at + p, sep)
  {
    var more := fields[key := child];
    if s in c {
      var q := NewEntryOrigin(c, child, at, key, sep, s);
      OldEntryFound(more, more, key, q);
      p := [key] + q;
    } else {
      p :| p in FieldPaths(fields) && at + p != [] && s == Join(at + p, sep);
      hide IsFlat, IsEntry;
      var k, q := FirstKey(fields, p);
      OldEntryFound(fields, more, k, q);
    }
  }

  lemma NewEntryOrigin(c: map<string, Json>, child: Json, at: Path, key: string, sep: char, s: string) returns (q: Path)
    requires IsEntry(c, child, at + [key], sep) && s in c
    ensures q in Paths(child) && s == Join(at + ([key] + q), sep)
  {
    hide IsEntry, Join, Paths;
    EntryMeaning(c, child, at + [key], sep);
    q :| q in Paths(child) && s == Join(at + [key] + q, sep);
    assert at + ([key] + q) == at + [key] + q;
  }

  lemma FieldPathGood(fields: map<string, Json>, sep: char, p: Path)
    requires GoodKeys(Rec(fields), sep) && p in FieldPaths(fields)
    ensures GoodPath(p, sep) && p != [] && p[0] in fields
  {
    var k, q :| k in fields && q in Paths(fields[k]) && p == [k] + q;
    PathsGood(fields[k], sep, q);
  }

  lemma NoCollision(c: map<string, Json>, child: Json, fields: map<string, Json>, key: string, p: Path, at: Path,
                    sep: char)
    requires IsEntry(c, child, at + [key], sep) && key !in fields && p in FieldPaths(fields)
    requires GoodPath(at, sep) && GoodKeys(Rec(fields), sep) && GoodKey(key, sep) && GoodKeys(child, sep)
    ensures at + p != [] && Join(at + p, sep) !in c
  {
    FieldPathGood(fields, sep, p);
    hide FieldPaths, Join, Split;
    if Join(at + p, sep) in c {
      var q := NewEntryOrigin(c, child, at, key, sep, Join(at + p, sep));
      PathsGood(child, sep, q);
      JoinInjective(at, p, [key] + q, sep);
    }
  }

  lemma JoinInjective(at: Path, p: Path, q: Path, sep: char)
    requires GoodPath(at, sep) && GoodPath(p, sep) && GoodPath(q, sep) && p != [] && q != []
    requires Join(at + p, sep) == Join(at + q, sep)
    ensures p == q
  {
    hide Join, Split;
    SplitOfJoin(at + p, sep);
    SplitOfJoin(at + q, sep);
    assert (at + p)[|at|..] == p && (at + q)[|at|..] == q;
  }

  /** An object literal that is being filled. */
  class Output {
    var fields: map<string, Json>

    /**
     * `output[key] = item` on an object that inherits from `Object.prototype`. Under the one key that
     * runs the accessor inherited from there, which makes no property of its own.
     */
    method Assign(key: string, item: Json)
      modifies this
      ensures fields == if key == PROTO then old(fields) else old(fields)[key := item]
    {
      if key != PROTO {
        fields := fields[key := item];
      }
    }

    constructor ()
      ensures fields == map[]
    {
      fields := map[];
    }
  }

  function PathString(prefix: string, separator: string, key: string): string {
    if prefix != "" then prefix + separator + key else key
  }

  /** `prefix` is how `visit` writes path `at`. */
  ghost predicate IsPrefix(prefix: string, separator: string, at: Path, sep: char) {
    separator == [sep] && GoodPath(at, sep) && prefix == if at == [] then "" else Join(at, sep)
  }

  lemma PrefixExtended(prefix: string, separator: string, at: Path, sep: char, key: string)
    requires IsPrefix(prefix, separator, at, sep) && GoodKey(key, sep)
    ensures IsPrefix(PathString(prefix, separator, key), separator, at + [key], sep)
    ensures PathString(prefix, separator, key) == Join(at + [key], sep)
  {
    if at != [] {
      SplitOfJoin(at, sep);
      JoinLast(at, key, sep);
    } else {
      assert at + [key] == [key];
    }
  }

  lemma NothingFlat(at: Path, sep: char)
    ensures IsFlat(map[], map[], at, sep)
  {
  }

  /** Assignments made one batch after the other. */
  lemma UnlessProto(fields: map<string, Json>, s: map<string, Json>, t: map<string, Json>)
    ensures fields + (s - {PROTO}) + (t - {PROTO}) == fields + (s + t - {PROTO})
  {
  }

  lemma EntryVisited(item: Json, prefix: string, separator: string, at: Path, sep: char, added: map<string, Json>,
                     entry: map<string, Json>, visited: map<string, Json>, key: string)
    requires item.Rec? && key in item.fields && key !in visited
    requires forall k :: k in visited ==> k in item.fields && visited[k] == item.fields[k]
    requires var child, path := item.fields[key], PathString(prefix, separator, key);
             if Inner(child) then
               IsPrefix(path, separator, at + [key], sep) && GoodKeys(child, sep) ==>
                 IsFlat(entry, child.fields, at + [key], sep)
             else entry == map[path := child]
    requires IsPrefix(prefix, separator, at, sep) && GoodKeys(item, sep) ==> IsFlat(added, visited, at, sep)
    ensures IsPrefix(prefix, separator, at, sep) && GoodKeys(item, sep) ==>
              IsFlat(added + entry, visited[key := item.fields[key]], at, sep)
  {
    hide IsFlat, PathString, Join;
    if IsPrefix(prefix, separator, at, sep) && GoodKeys(item, sep) {
      PrefixExtended(prefix, separator, at, sep, key);
      FlatExtended(added, entry, visited, key, item.fields[key], at, sep);
    }
  }

  /** Visits the entries of a record, in any order; `added` are the assignments it makes. */
  method Visit(item: Json, prefix: string, separator: string, output: Output, ghost at: Path, ghost sep: char)
    returns (ghost added: map<string, Json>)
    requires item.Rec?
    modifies output
    ensures output.fields == old(output.fields) + (added - {PROTO})
    ensures IsPrefix(prefix, separator, at, sep) && GoodKeys(item, sep) ==> IsFlat(added, item.fields, at, sep)
    decreases item
  {
    hide IsFlat, PathString, Join, IsPrefix, GoodKeys;
    var pending := item.fields.Keys;
    ghost var visited: map<string, Json> := map[];
    added := map[];
    NothingFlat(at, sep);
    while pending != {}
      invariant pending <= item.fields.Keys && visited.Keys == item.fields.Keys - pending
      invariant forall k :: k in visited ==> visited[k] == item.fields[k]
      invariant output.fields == old(output.fields) + (added - {PROTO})
      invariant IsPrefix(prefix, separator, at, sep) && GoodKeys(item, sep) ==> IsFlat(added, visited, at, sep)
      decreases pending
    {
      var key :| key in pending;
      var child := item.fields[key];
      var path := PathString(prefix, separator, key);
      ghost var entry;
      if Inner(child) {
        entry := Visit(child, path, separator, output, at + [key], sep);
      } else {
        output.Assign(path, child);
        entry := map[path := child];
        assert output.fields == old(output.fields) + (added - {PROTO}) + (entry - {PROTO});
      }
      EntryVisited(item, prefix, separator, at, sep, added, entry, visited, key);
      UnlessProto(old(output.fields), added, entry);
      added := added + entry;
      visited := visited[key := child];
      pending := pending - {key};
    }
    assert visited == item.fields;
  }

  /** Some entry of the flat form would have the key `__proto__`. */
  ghost predicate LosesEntry(fields: map<string, Json>, sep: char) {
    Split(PROTO, sep) in FieldPaths(fields)
  }

  /** With a separator that does not occur in it, that is an entry at the top that is not descended into. */
  lemma LosesAtTop(fields: map<string, Json>, sep: char)
    requires sep !in PROTO
    ensures LosesEntry(fields, sep) <==> PROTO in fields && !Inner(fields[PROTO])
  {
    SplitWhole(PROTO, sep);
    if PROTO in fields && !Inner(fields[PROTO]) {
      assert [PROTO] == [PROTO] + [] && [] in Paths(fields[PROTO]);
    }
    if [PROTO] in FieldPaths(fields) {
      var k, p :| k in fields && p in Paths(fields[k]) && [PROTO] == [k] + p;
      assert ([k] + p)[0] == k && |[k] + p| == 1;
    }
  }

  /** An assignment that is not made leaves the flat form one entry short. */
  lemma FlatUnlessLost(m: map<string, Json>, fields: map<string, Json>, sep: char)
    requires GoodKeys(Rec(fields), sep) && IsFlat(m, fields, [], sep)
    ensures PROTO in m <==> LosesEntry(fields, sep)
    ensures IsFlat(m - {PROTO}, fields, [], sep) <==> !LosesEntry(fields, sep)
  {
    hide Split, Join, Paths, FieldPaths, GoodKeys;
    if PROTO in m {
      var p :| p in FieldPaths(fields) && [] + p != [] && PROTO == Join([] + p, sep);
      assert [] + p == p;
      FieldPathGood(fields, sep, p);
      SplitOfJoin(p, sep);
      assert Join([] + p, sep) !in m - {PROTO};
    } else {
      assert m - {PROTO} == m;
    }
    LostWasMade(m, fields, sep);
  }

  lemma LostWasMade(m: map<string, Json>, fields: map<string, Json>, sep: char)
    requires IsFlat(m, fields, [], sep)
    ensures LosesEntry(fields, sep) ==> PROTO in m
  {
    JoinSplit(PROTO, sep);
    assert [] + Split(PROTO, sep) == Split(PROTO, sep);
  }

  /**
   * The own properties of the output are the assignments `made`, the flat form, without the one under
   * `__proto__`. They are the flat form exactly when there is none such.
   */
  method Flatten(value: Json, separator: string) returns (flat: map<string, Json>, ghost made: map<string, Json>)
    requires value.Rec?
    ensures flat == made - {PROTO}
    ensures |separator| == 1 && GoodKeys(value, separator[0]) ==>
              && IsFlat(made, value.fields, [], separator[0])
              && (IsFlat(flat, value.fields, [], separator[0]) <==> !LosesEntry(value.fields, separator[0]))
  {
    hide IsFlat, LosesEntry;
    var output := new Output();
    ghost var sep := if separator == "" then '.' else separator[0];
    made := Visit(value, "", separator, output, [], sep);
    flat := output.fields;
    assert map[] + (made - {PROTO}) == made - {PROTO};
    if |separator| == 1 && GoodKeys(value, sep) {
      FlatUnlessLost(made, value.fields, sep);
    }
  }

  // ----- unflatten -----------------------------------------------------------------------------

  datatype PathError = UnsafeObjectPath

  /** The record with `item` put at a path; anything on the way that is no record is replaced by one. */
  function Insert(o: Json, keys: Path, item: Json): (r: Json)
    requires o.Rec? && keys != []
    ensures r.Rec?
    decreases |keys|
  {
    if |keys| == 1 then Rec(o.fields[keys[0] := item])
    else
      var next := if keys[0] in o.fields && o.fields[keys[0]].Rec? then o.fields[keys[0]] else Rec(map[]);
      Rec(o.fields[keys[0] := Insert(next, keys[1..], item)])
  }

  /** What `t` holds at a path, if anything. */
  function Read(t: Json, p: Path): Option<Json>
    decreases |p|
  {
    if p == [] then Some(t)
    else if t.Rec? && p[0] in t.fields then Read(t.fields[p[0]], p[1..])
    else None
  }

  /**
   * After inserting, the item is at its path and a record at each place on the way; whatever is not on the way,
   * nor below the path, is as it was.
   */
  lemma {:induction false} InsertReads(o: Json, keys: Path, item: Json, p: Path)
    requires o.Rec? && keys != []
    ensures var r := Read(Insert(o, keys, item), p);
            if keys <= p then r == Read(item, p[|keys|..])
            else if p < keys then r.Some? && r.value.Rec?
            else r == Read(o, p)
    decreases |keys|
  {
    if p != [] && p[0] == keys[0] {
      assert p == [p[0]] + p[1..] && keys == [keys[0]] + keys[1..];
      if |keys| == 1 {
        assert keys <= p;
      } else {
        var next := if keys[0] in o.fields && o.fields[keys[0]].Rec? then o.fields[keys[0]] else Rec(map[]);
        InsertReads(next, keys[1..], item, p[1..]);
        assert keys <= p <==> keys[1..] <= p[1..];
        assert keys <= p ==> p[|keys|..] == p[1..][|keys| - 1..];
        assert p < keys <==> p[1..] < keys[1..];
      }
    }
  }

  /** There is a record at this path and all the way to it. */
  predicate RecordAt(o: Json, keys: Path)
    decreases |keys|
  {
    o.Rec? && (keys == [] || (keys[0] in o.fields && RecordAt(o.fields[keys[0]], keys[1..])))
  }

  /** The fields of the record at a path. */
  function CursorFields(o: Json, keys: Path): map<string, Json>
    requires RecordAt(o, keys)
    decreases |keys|
  {
    if keys == [] then o.fields else CursorFields(o.fields[keys[0]], keys[1..])
  }

  /** Assigns to a field of the record at a path. */
  function Assign(o: Json, cursor: Path, key: string, item: Json): (r: Json)
    requires RecordAt(o, cursor)
    ensures r.Rec?
    decreases |cursor|
  {
    if cursor == [] then Rec(o.fields[key := item])
    else Rec(o.fields[cursor[0] := Assign(o.fields[cursor[0]], cursor[1..], key, item)])
  }

  lemma {:induction false} AssignIsInsert(o: Json, cursor: Path, key: string, item: Json)
    requires RecordAt(o, cursor)
    ensures Insert(o, cursor + [key], item) == Assign(o, cursor, key, item)
    decreases |cursor|
  {
    if cursor == [] {
      assert cursor + [key] == [key];
    } else {
      AssignIsInsert(o.fields[cursor[0]], cursor[1..], key, item);
      assert (cursor + [key])[1..] == cursor[1..] + [key];
    }
  }

  lemma {:induction false} CursorMoves(o: Json, cursor: Path, key: string)
    requires RecordAt(o, cursor) && key in CursorFields(o, cursor) && CursorFields(o, cursor)[key].Rec?
    ensures RecordAt(o, cursor + [key])
    decreases |cursor|
  {
    if cursor == [] {
      assert cursor + [key] == [key];
    } else {
      CursorMoves(o.fields[cursor[0]], cursor[1..], key);
      assert (cursor + [key])[1..] == cursor[1..] + [key];
    }
  }

  /** Making room for the next step on the way changes nothing for the insertion. */
  lemma {:induction false} RoomMade(o: Json, cursor: Path, key: string, rest: Path, item: Json)
    requires RecordAt(o, cursor) && rest != []
    requires !(key in CursorFields(o, cursor) && CursorFields(o, cursor)[key].Rec?)
    ensures var made := Assign(o, cursor, key, Rec(map[]));
            && RecordAt(made, cursor + [key])
            && Insert(made, cursor + [key] + rest, item) == Insert(o, cursor + [key] + rest, item)
    decreases |cursor|
  {
    var path := cursor + [key] + rest;
    if cursor == [] {
      assert cursor + [key] == [key] && path[1..] == rest && path[0] == key;
      assert o.fields[key := Rec(map[])][key := Insert(Rec(map[]), rest, item)] ==
             o.fields[key := Insert(Rec(map[]), rest, item)];
    } else {
      var next := o.fields[cursor[0]];
      RoomMade(next, cursor[1..], key, rest, item);
      assert path[1..] == cursor[1..] + [key] + rest && path[0] == cursor[0];
      assert (cursor + [key])[1..] == cursor[1..] + [key];
      var inner := Assign(next, cursor[1..], key, Rec(map[]));
      var result := Insert(inner, path[1..], item);
      assert o.fields[cursor[0] := inner][cursor[0] := result] == o.fields[cursor[0] := result];
    }
  }

  predicate Unsafe(keys: Path) {
    exists i :: 0 <= i < |keys| && keys[i] in UNSAFE_KEYS
  }

  /** One path: the cursor moves along the keys, creating records where there are none. */
  method InsertPath(output: Json, keys: Path, item: Json) returns (r: Result<Json, PathError>)
    requires output.Rec? && keys != []
    ensures r == if Unsafe(keys) then Failure(UnsafeObjectPath) else Success(Insert(output, keys, item))
    ensures r.Failure? <==>
            exists i :: 0 <= i < |keys| &&
              (keys[i] == "__proto__" || keys[i] == "prototype" || keys[i] == "constructor")
  {
    var result := output;
    var cursor: Path := [];
    for index := 0 to |keys|
      invariant cursor == keys[..if index == |keys| then |keys| - 1 else index]
      invariant forall j :: 0 <= j < index ==> keys[j] !in UNSAFE_KEYS
      invariant result.Rec?
      invariant index < |keys| ==> RecordAt(result, cursor) && Insert(result, keys, item) == Insert(output, keys, item)
      invariant index == |keys| ==> result == Insert(output, keys, item)
    {
      var key := keys[index];
      if key in UNSAFE_KEYS {
        return Failure(UnsafeObjectPath);
      }
      if index == |keys| - 1 {
        assert keys == cursor + [key];
        AssignIsInsert(result, cursor, key, item);
        result := Assign(result, cursor, key, item);
      } else {
        var fields := CursorFields(result, cursor);
        assert keys == cursor + [key] + keys[index + 1..];
        if !(key in fields && fields[key].Rec?) {
          RoomMade(result, cursor, key, keys[index + 1..], item);
          result := Assign(result, cursor, key, Rec(map[]));
        } else {
          CursorMoves(result, cursor, key);
        }
        cursor := cursor + [key];
      }
    }
    return Success(result);
  }

  type Entry = (string, Json)

  /** The record that inserting the entries one after the other builds, or the first error. */
  function Unflattened(entries: seq<Entry>, separator: char): (r: Result<Json, PathError>)
    ensures r.Success? ==> r.value.Rec?
    ensures r.Failure? ==> r.error == UnsafeObjectPath
  {
    if entries == [] then Success(Rec(map[]))
    else
      var built :- Unflattened(entries[..|entries| - 1], separator);
      var (path, item) := entries[|entries| - 1];
      var keys := Split(path, separator);
      if Unsafe(keys) then Failure(UnsafeObjectPath) else Success(Insert(built, keys, item))
  }

  lemma {:induction false} FirstErrorStays(entries: seq<Entry>, n: nat, separator: char)
    requires n <= |entries| && Unflattened(entries[..n], separator).Failure?
    ensures Unflattened(entries, separator) == Failure(UnsafeObjectPath)
  {
    if n == |entries| {
      assert entries[..n] == entries;
    } else {
      assert entries[..|entries| - 1][..n] == entries[..n];
      FirstErrorStays(entries[..|entries| - 1], n, separator);
    }
  }

  method Unflatten(entries: seq<Entry>, separator: char) returns (r: Result<Json, PathError>)
    ensures r == Unflattened(entries, separator)
  {
    var output := Rec(map[]);
    for i := 0 to |entries|
      invariant Unflattened(entries[..i], separator) == Success(output)
    {
      assert entries[..i + 1][..i] == entries[..i];
      var step := InsertPath(output, Split(entries[i].0, separator), entries[i].1);
      if step.Failure? {
        FirstErrorStays(entries, i + 1, separator);
        return step;
      }
      output := step.value;
    }
    assert entries[..|entries|] == entries;
    return Success(output);
  }

  // ----- Round trip ----------------------------------------------------------------------------

  ghost function Below(s: set<Path>, k: string): set<Path> {
    set p | p in s && p != [] && p[0] == k :: p[1..]
  }

  /** The part of `t` that lies on the paths of `s`. */
  ghost function Prune(t: Json, s: set<Path>): Json
    decreases t
  {
    if Inner(t) then Rec(map k | k in t.fields && Below(s, k) != {} :: Prune(t.fields[k], Below(s, k))) else t
  }

  lemma BelowAdded(s: set<Path>, p: Path, k: string)
    requires p != []
    ensures Below(s + {p}, k) == if p[0] == k then Below(s, k) + {p[1..]} else Below(s, k)
  {
    if p[0] == k {
      assert p in s + {p};
    }
  }

  /** Inserting what `t` holds at a path adds exactly that path to the part built so far. */
  lemma {:induction false} PruneGrows(t: Json, s: set<Path>, p: Path)
    requires Inner(t) && p in Paths(t)
    ensures p != [] && Prune(t, s).Rec? && Insert(Prune(t, s), p, At(t, p)) == Prune(t, s + {p})
    decreases t
  {
    var k, q :| k in t.fields && q in Paths(t.fields[k]) && p == [k] + q;
    assert p[0] == k && p[1..] == q;
    var child := t.fields[k];
    if Inner(child) {
      PruneGrows(child, Below(s, k), q);
      PruneNothing(child);
    }
    hide Paths;
    PruneAfter(t, s, p);
    assert Insert(Prune(t, s), p, At(t, p)).fields == Prune(t, s + {p}).fields;
  }

  /** A path more changes the part below its first key only. */
  lemma PruneAfter(t: Json, s: set<Path>, p: Path)
    requires Inner(t) && p != [] && p[0] in t.fields
    ensures Prune(t, s).Rec? && Prune(t, s + {p}).Rec?
    ensures Prune(t, s + {p}).fields ==
            Prune(t, s).fields[p[0] := Prune(t.fields[p[0]], Below(s, p[0]) + {p[1..]})]
    ensures p[0] in Prune(t, s).fields <==> Below(s, p[0]) != {}
    ensures p[0] in Prune(t, s).fields ==> Prune(t, s).fields[p[0]] == Prune(t.fields[p[0]], Below(s, p[0]))
  {
    hide Below;
    forall j
      ensures Below(s + {p}, j) == if j == p[0] then Below(s, j) + {p[1..]} else Below(s, j)
    {
      BelowAdded(s, p, j);
    }
    var k, before, after := p[0], Prune(t, s).fields, Prune(t, s + {p}).fields;
    assert Below(s, k) + {p[1..]} != {};
    assert forall j :: j in after <==> j == k || j in before;
    assert after == before[k := Prune(t.fields[k], Below(s, k) + {p[1..]})];
  }

  lemma PruneNothing(t: Json)
    requires Inner(t)
    ensures Prune(t, {}) == Rec(map[])
  {
    assert forall k :: Below({}, k) == {};
    assert Prune(t, {}).fields == map[];
  }

  lemma {:induction false} PathsNonEmpty(t: Json) returns (p: Path)
    ensures p in Paths(t)
    decreases t
  {
    if Inner(t) {
      assert t.fields.Keys != {};
      var k :| k in t.fields;
      var q := PathsNonEmpty(t.fields[k]);
      p := [k] + q;
    } else {
      p := [];
    }
  }

  lemma {:induction false} PruneAll(t: Json)
    ensures Prune(t, Paths(t)) == t
    decreases t
  {
    if Inner(t) {
      forall k | k in t.fields
        ensures Below(Paths(t), k) == Paths(t.fields[k]) != {} && Prune(t.fields[k], Paths(t.fields[k])) == t.fields[k]
      {
        PathsBelow(t, k);
        PruneAll(t.fields[k]);
        var p := PathsNonEmpty(t.fields[k]);
      }
      assert Prune(t, Paths(t)).fields == t.fields;
    }
  }

  lemma PathsBelow(t: Json, k: string)
    requires Inner(t) && k in t.fields
    ensures Below(Paths(t), k) == Paths(t.fields[k])
  {
    forall q | q in Paths(t.fields[k])
      ensures q in Below(Paths(t), k)
    {
      var p := [k] + q;
      assert p in Paths(t) && p[0] == k && p[1..] == q;
    }
    forall q | q in Below(Paths(t), k)
      ensures q in Paths(t.fields[k])
    {
      var p :| p in Paths(t) && p != [] && p[0] == k && q == p[1..];
      var j, r :| j in t.fields && r in Paths(t.fields[j]) && p == [j] + r;
      assert r == q;
    }
  }

  /** `entries` lists the properties of `m`, each once, in some order. */
  ghost predicate Lists(entries: seq<Entry>, m: map<string, Json>) {
    && (forall i :: 0 <= i < |entries| ==> entries[i].0 in m && m[entries[i].0] == entries[i].1)
    && (forall s :: s in m ==> exists i :: 0 <= i < |entries| && entries[i].0 == s)
  }

  /** The paths of the entries. */
  ghost function EntryPaths(entries: seq<Entry>, sep: char): set<Path> {
    set i | 0 <= i < |entries| :: Split(entries[i].0, sep)
  }

  lemma FlatEntry(t: Json, m: map<string, Json>, sep: char, s: string)
    requires Inner(t) && GoodKeys(t, sep) && IsFlat(m, t.fields, [], sep) && s in m
    ensures Split(s, sep) in Paths(t) && m[s] == At(t, Split(s, sep)) && s == Join(Split(s, sep), sep)
  {
    var p :| p in FieldPaths(t.fields) && [] + p != [] && s == Join([] + p, sep);
    assert [] + p == p;
    FieldPathGood(t.fields, sep, p);
    SplitOfJoin(p, sep);
  }

  lemma EntryPathAdded(entries: seq<Entry>, sep: char)
    requires entries != []
    ensures EntryPaths(entries, sep) ==
            EntryPaths(entries[..|entries| - 1], sep) + {Split(entries[|entries| - 1].0, sep)}
  {
    hide Split;
    var n := |entries| - 1;
    var init := entries[..n];
    forall i | 0 <= i < n
      ensures Split(entries[i].0, sep) in EntryPaths(init, sep)
    {
      assert init[i] == entries[i];
    }
  }

  lemma {:induction false} BuiltSoFar(t: Json, m: map<string, Json>, entries: seq<Entry>, sep: char)
    requires Inner(t) && GoodKeys(t, sep) && IsFlat(m, t.fields, [], sep)
    requires forall i :: 0 <= i < |entries| ==> entries[i].0 in m && m[entries[i].0] == entries[i].1
    requires forall i :: 0 <= i < |entries| ==> !Unsafe(Split(entries[i].0, sep))
    ensures Unflattened(entries, sep) == Success(Prune(t, EntryPaths(entries, sep)))
  {
    hide IsFlat, GoodKeys, Paths, Split, Join, Prune, Insert, At, Unsafe;
    if entries == [] {
      PruneNothing(t);
      assert EntryPaths(entries, sep) == {};
    } else {
      var n := |entries| - 1;
      var init := entries[..n];
      BuiltSoFar(t, m, init, sep);
      FlatEntry(t, m, sep, entries[n].0);
      EntryPathAdded(entries, sep);
      PruneGrows(t, EntryPaths(init, sep), Split(entries[n].0, sep));
    }
  }

  /** Some key of `t` is one that `unflatten` refuses. */
  ghost predicate HasUnsafeKey(t: Json) {
    exists p :: p in Paths(t) && Unsafe(p)
  }

  /** The paths whose entries the output of `flatten` has. */
  ghost function KeptPaths(t: Json, sep: char): set<Path> {
    Paths(t) - {Split(PROTO, sep)}
  }

  /**
   * Flattening and unflattening, for records whose keys are non-empty and free of the separator. The
   * properties of the output, taken in any order, are refused if one of their keys is unsafe; otherwise they
   * build the part of the record that they describe. That is the record itself exactly when no key is
   * unsafe and no entry was lost on the way.
   */
  lemma FlattenRoundTrip(t: Json, m: map<string, Json>, entries: seq<Entry>, sep: char)
    requires t.Rec? && GoodKeys(t, sep) && IsFlat(m, t.fields, [], sep) && Lists(entries, m - {PROTO})
    ensures Unflattened(entries, sep) ==
            if exists p :: p in KeptPaths(t, sep) && Unsafe(p) then Failure(UnsafeObjectPath)
            else Success(Prune(t, KeptPaths(t, sep)))
    ensures Unflattened(entries, sep) == Success(t) <==> !HasUnsafeKey(t) && !LosesEntry(t.fields, sep)
  {
    hide IsFlat, GoodKeys, Paths, Split, Unsafe;
    if !Inner(t) {
      EmptyRecordFlat(t, m, sep);
    } else {
      PathsOfInner(t);
      EntryPathsKept(t, m, entries, sep);
      if p :| p in KeptPaths(t, sep) && Unsafe(p) {
        UnsafeRefused(entries, sep);
      } else {
        SafeBuilt(t, m, entries, sep);
        if LosesEntry(t.fields, sep) {
          PruneStrict(t, KeptPaths(t, sep), Split(PROTO, sep));
        } else {
          assert KeptPaths(t, sep) == Paths(t);
          PruneAll(t);
        }
      }
    }
  }

  lemma PathsOfInner(t: Json)
    requires Inner(t)
    ensures Paths(t) == FieldPaths(t.fields)
  {
  }

  lemma EmptyRecordFlat(t: Json, m: map<string, Json>, sep: char)
    requires t == Rec(map[]) && IsFlat(m, t.fields, [], sep)
    ensures m == map[] && !HasUnsafeKey(t) && !LosesEntry(t.fields, sep)
    ensures KeptPaths(t, sep) == {[]} && Prune(t, KeptPaths(t, sep)) == t
  {
    assert forall p :: p !in FieldPaths(t.fields);
  }

  lemma UnsafeRefused(entries: seq<Entry>, sep: char)
    requires exists p :: p in EntryPaths(entries, sep) && Unsafe(p)
    ensures Unflattened(entries, sep) == Failure(UnsafeObjectPath)
  {
    hide Split, Unsafe;
    var p :| p in EntryPaths(entries, sep) && Unsafe(p);
    var i :| 0 <= i < |entries| && p == Split(entries[i].0, sep);
    assert entries[..i + 1][..i] == entries[..i];
    FirstErrorStays(entries, i + 1, sep);
  }

  lemma SafeBuilt(t: Json, m: map<string, Json>, entries: seq<Entry>, sep: char)
    requires Inner(t) && GoodKeys(t, sep) && IsFlat(m, t.fields, [], sep) && Lists(entries, m - {PROTO})
    requires EntryPaths(entries, sep) == KeptPaths(t, sep)
    requires forall p :: p in KeptPaths(t, sep) ==> !Unsafe(p)
    ensures Unflattened(entries, sep) == Success(Prune(t, KeptPaths(t, sep)))
  {
    hide Paths, IsFlat, Split, Join, GoodKeys, KeptPaths;
    forall i | 0 <= i < |entries|
      ensures !Unsafe(Split(entries[i].0, sep))
    {
      assert Split(entries[i].0, sep) in EntryPaths(entries, sep);
    }
    BuiltSoFar(t, m, entries, sep);
  }

  lemma EntryPathsKept(t: Json, m: map<string, Json>, entries: seq<Entry>, sep: char)
    requires Inner(t) && GoodKeys(t, sep) && IsFlat(m, t.fields, [], sep) && Lists(entries, m - {PROTO})
    ensures EntryPaths(entries, sep) == KeptPaths(t, sep)
  {
    hide IsFlat, GoodKeys, Paths, Split, Join;
    forall p | p in KeptPaths(t, sep)
      ensures p in EntryPaths(entries, sep)
    {
      PathListed(t, m, entries, sep, p);
    }
    forall p | p in EntryPaths(entries, sep)
      ensures p in KeptPaths(t, sep)
    {
      var i :| 0 <= i < |entries| && p == Split(entries[i].0, sep);
      FlatEntry(t, m, sep, entries[i].0);
      JoinSplit(PROTO, sep);
    }
  }

  lemma PathListed(t: Json, m: map<string, Json>, entries: seq<Entry>, sep: char, p: Path)
    requires Inner(t) && GoodKeys(t, sep) && IsFlat(m, t.fields, [], sep) && Lists(entries, m - {PROTO})
    requires p in Paths(t) && p != Split(PROTO, sep)
    ensures p in EntryPaths(entries, sep)
  {
    hide IsFlat, GoodKeys, Paths, Split, Join;
    PathInFlat(t, m, sep, p);
    var s := Join(p, sep);
    assert s != PROTO && s in m - {PROTO};
    var i :| 0 <= i < |entries| && entries[i].0 == s;
    assert Split(entries[i].0, sep) in EntryPaths(entries, sep);
  }

  lemma PathInFlat(t: Json, m: map<string, Json>, sep: char, p: Path)
    requires Inner(t) && GoodKeys(t, sep) && IsFlat(m, t.fields, [], sep) && p in Paths(t)
    ensures p != [] && Join(p, sep) in m && Split(Join(p, sep), sep) == p
  {
    assert p in FieldPaths(t.fields) && [] + p == p;
    FieldPathGood(t.fields, sep, p);
    SplitOfJoin(p, sep);
  }

  /** A part that lacks one of the paths is not the whole. */
  lemma {:induction false} PruneStrict(t: Json, s: set<Path>, p: Path)
    requires Inner(t) && s <= Paths(t) && p in Paths(t) && p !in s
    ensures Prune(t, s) != t
    decreases t
  {
    var k, q :| k in t.fields && q in Paths(t.fields[k]) && p == [k] + q;
    var child := t.fields[k];
    BelowSubset(t, s, k);
    InBelow(s, k, q);
    if Inner(child) {
      PruneStrict(child, Below(s, k), q);
      assert k in Prune(t, s).fields ==> Prune(t, s).fields[k] != child;
    } else {
      assert Below(s, k) == {};
      assert k !in Prune(t, s).fields;
    }
  }

  lemma InBelow(s: set<Path>, k: string, q: Path)
    ensures q in Below(s, k) <==> [k] + q in s
  {
    forall r | r in s && r != [] && r[0] == k && r[1..] == q
      ensures [k] + q == r
    {
    }
    if [k] + q in s {
      assert ([k] + q)[0] == k && ([k] + q)[1..] == q;
    }
  }

  lemma BelowSubset(t: Json, s: set<Path>, k: string)
    requires Inner(t) && s <= Paths(t) && k in t.fields
    ensures Below(s, k) <= Paths(t.fields[k])
  {
    PathsBelow(t, k);
  }

  /** The least input that is lost: nothing is refused, and an empty record comes back. */
  lemma ProtoLost(value: string, m: map<string, Json>, sep: char)
    requires sep !in PROTO && IsFlat(m, map[PROTO := Leaf(value)], [], sep)
    ensures m - {PROTO} == map[] && Unflattened([], sep) == Success(Rec(map[]))
    ensures LosesEntry(map[PROTO := Leaf(value)], sep)
  {
    var fields := map[PROTO := Leaf(value)];
    LosesAtTop(fields, sep);
    forall s | s in m
      ensures s == PROTO
    {
      var p :| p in FieldPaths(fields) && [] + p != [] && s == Join([] + p, sep);
      assert [] + p == [PROTO];
    }
  }
}
