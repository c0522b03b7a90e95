/** The file table as its repository sees it: rows found by folded path, changed by query. */
module FileTable {
  import opened Text
  import opened Paths
  import opened Rows

  datatype Stored = Stored(id: nat, row: Row)

  // The database's own constraint: (path, namespace) is unique as written.
  predicate DbUnique(t: Table) {
    forall i, j :: i in t && j in t && t[i].ns == t[j].ns && t[i].path == t[j].path ==> i == j
  }

  predicate Matches(r: Row, ns: string, prefix: string) {
    r.ns == ns && IStartsWith(Str(r.path), prefix)
  }

  // What replace_path_prefix makes of a matching row.
  function Renamed(r: Row, at: Path, toNs: string, toOwner: string, to: Path): Row {
    var p := FromStr(ReplaceFirst(Str(r.path), Str(at), Str(to)));
    if r.ns == toNs then r.(path := p, name := NameOf(p))
    else r.(ns := toNs, owner := toOwner, path := p, name := NameOf(p))
  }

  function Dropped(t: Table, ns: string, prefix: string): Table {
    map i | i in t && !Matches(t[i], ns, prefix) :: t[i]
  }

  function Incremented(r: Row, ns: string, paths: set<Path>, value: int): Row {
    if r.ns == ns && r.path in paths then r.(size := r.size + value) else r
  }

  function IncrementedAll(t: Table, ns: string, paths: set<Path>, value: int): Table {
    map i | i in t :: Incremented(t[i], ns, paths, value)
  }

  function PrefixReplaced(t: Table, atNs: string, at: Path, toNs: string, toOwner: string, to: Path): Table {
    map i | i in t :: if Matches(t[i], atNs, Str(at) + "/") then Renamed(t[i], at, toNs, toOwner, to) else t[i]
  }

  // bulk_create with ignore_conflicts: rows whose exact path is taken are skipped.
  function SavedBatch(t: Table, nextId: nat, rows: seq<Row>): Table
    decreases |rows|
  {
    if rows == [] then t
    else if exists i :: i in t && t[i].ns == rows[0].ns && t[i].path == rows[0].path
    then SavedBatch(t, nextId, rows[1..])
    else SavedBatch(t[nextId := rows[0]], nextId + 1, rows[1..])
  }

  predicate SortedByPath(s: seq<Stored>) {
    forall i, j :: 0 <= i < j < |s| ==> LexLe(Lower(Str(s[i].row.path)), Lower(Str(s[j].row.path)))
  }

  lemma ReplacedBy(t: Table, updated: Table, objs: set<nat>, atNs: string, at: Path, toNs: string, toOwner: string,
                   to: Path)
    requires forall i :: i in objs <==> i in t && Matches(t[i], atNs, Str(at) + "/")
    requires updated.Keys == objs && forall i :: i in updated ==> updated[i] == Renamed(t[i], at, toNs, toOwner, to)
    ensures t + updated == PrefixReplaced(t, atNs, at, toNs, toOwner, to)
  {
    hide Matches, Renamed, Str;
    assert updated.Keys <= t.Keys;
    var r := PrefixReplaced(t, atNs, at, toNs, toOwner, to);
    assert (t + updated).Keys == r.Keys;
    forall i | i in t ensures (t + updated)[i] == r[i] { }
  }

  class FileRepository {
    var rows: Table
    var nextId: nat

    ghost predicate Valid()
      reads this
    {
      forall i :: i in rows ==> i < nextId
    }

    constructor ()
      ensures Valid() && rows == map[] && nextId == 0
    {
      rows, nextId := map[], 0;
    }

    method GetByPath(ns: string, path: Path) returns (r: Result<Stored>)
      ensures r.Ok? ==> r.value.id in rows && rows[r.value.id] == r.value.row && At(r.value.row, ns, path)
      ensures r.Err? ==> r.error == NotFound && !Taken(rows, ns, path)
    {
      if i :| i in rows && rows[i].ns == ns && Lower(Str(rows[i].path)) == Lower(Str(path)) {
        SameIsStringEquality(rows[i].path, path);
        return Ok(Stored(i, rows[i]));
      }
      forall i | i in rows ensures !At(rows[i], ns, path) {
        SameIsStringEquality(rows[i].path, path);
      }
      return Err(NotFound);
    }

    method ExistsAtPath(ns: string, path: Path) returns (r: bool)
      ensures r <==> Taken(rows, ns, path)
    {
      var f := GetByPath(ns, path);
      r := f.Ok?;
    }

    method Delete(ns: string, path: Path) returns (r: Result<Stored>)
      modifies this`rows
      ensures r.Err? ==> r.error == NotFound && !Taken(old(rows), ns, path) && rows == old(rows)
      ensures r.Ok? ==>
                r.value.id in old(rows) && old(rows)[r.value.id] == r.value.row && At(r.value.row, ns, path)
                && rows == old(rows) - {r.value.id}
    {
      r := GetByPath(ns, path);
      if r.Ok? { rows := rows - {r.value.id}; }
    }

    method DeleteAllWithPrefix(ns: string, prefix: string)
      modifies this`rows
      ensures rows == Dropped(old(rows), ns, prefix)
    {
      rows := map i | i in rows && !Matches(rows[i], ns, prefix) :: rows[i];
    }

    // Sizes are changed on exact paths.
    method IncrSizeBatch(ns: string, paths: set<Path>, value: int)
      modifies this`rows
      ensures rows == IncrementedAll(old(rows), ns, paths, value)
    {
      if value == 0 {
        assert rows == IncrementedAll(rows, ns, paths, value);
        return;
      }
      rows := map i | i in rows :: Incremented(rows[i], ns, paths, value);
    }

    method Update(id: nat, ns: string, owner: string, name: string, path: Path) returns (ok: bool)
      requires id in rows
      modifies this`rows
      ensures var t := old(rows)[id := old(rows)[id].(ns := ns, owner := owner, name := name, path := path)];
              ok == DbUnique(t) && rows == if ok then t else old(rows)
    {
      var t := rows[id := rows[id].(ns := ns, owner := owner, name := name, path := path)];
      ok := DbUnique(t);
      if ok { rows := t; }
    }

    method ReplacePathPrefix(atNs: string, at: Path, toNs: string, toOwner: string, to: Path) returns (ok: bool)
      modifies this`rows
      ensures var t := PrefixReplaced(old(rows), atNs, at, toNs, toOwner, to);
              ok == DbUnique(t) && rows == if ok then t else old(rows)
    {
      hide Matches, DbUnique, FromStr, ReplaceFirst, NameOf, Str;
      var objs := set i | i in rows && Matches(rows[i], atNs, Str(at) + "/");
      var todo := objs;
      var updated: Table := map[];
      while todo != {}
        invariant rows == old(rows)
        invariant todo <= objs && updated.Keys == objs - todo
        invariant forall i :: i in updated ==> updated[i] == Renamed(rows[i], at, toNs, toOwner, to)
        decreases |todo|
      {
        var i :| i in todo;
        MatchesNs(rows[i], atNs, Str(at) + "/");
        var toPath := FromStr(ReplaceFirst(Str(rows[i].path), Str(at), Str(to)));
        var obj := rows[i].(path := toPath, name := NameOf(toPath));
        if atNs != toNs { obj := obj.(ns := toNs, owner := toOwner); }
        updated := updated[i := obj];
        todo := todo - {i};
      }
      var t := rows + updated;
      ReplacedBy(rows, updated, objs, atNs, at, toNs, toOwner, to);
      ok := DbUnique(t);
      if ok { rows := t; }
    }

    // Leaving an atomic block with an error puts the rows back.
    method Rollback(savepoint: Table)
      modifies this`rows
      ensures rows == savepoint
    {
      rows := savepoint;
    }

    method Save(row: Row) returns (r: Result<Stored>)
      requires Valid()
      modifies this
      ensures Valid()
      ensures r.Err? ==> r.error == AlreadyExists && rows == old(rows)
      ensures r.Err? ==> exists i :: i in rows && rows[i].ns == row.ns && rows[i].path == row.path
      ensures r.Ok? ==>
              r.value == Stored(old(nextId), row) && rows == old(rows)[old(nextId) := row]
                && nextId == old(nextId) + 1
      ensures r.Ok? <==> !exists i :: i in old(rows) && old(rows)[i].ns == row.ns && old(rows)[i].path == row.path
    {
      if exists i :: i in rows && rows[i].ns == row.ns && rows[i].path == row.path { return Err(AlreadyExists); }
      r := Ok(Stored(nextId, row));
      rows, nextId := rows[nextId := row], nextId + 1;
    }

    method SaveBatch(files: seq<Row>)
      requires Valid()
      modifies this
      ensures Valid() && rows == SavedBatch(old(rows), old(nextId), files)
    {
      ghost var goal := SavedBatch(rows, nextId, files);
      for n := 0 to |files|
        invariant Valid() && goal == SavedBatch(rows, nextId, files[n..])
      {
        assert files[n..][1..] == files[n + 1..];
        if !exists i :: i in rows && rows[i].ns == files[n].ns && rows[i].path == files[n].path {
          rows, nextId := rows[nextId := files[n]], nextId + 1;
        }
      }
    }

    // Every row whose folded path is among the given ones, ordered by folded path.
    method GetByPathBatch(ns: string, paths: seq<Path>) returns (objs: seq<Stored>)
      ensures SortedByPath(objs)
      ensures forall s :: s in objs ==>
              s.id in rows && rows[s.id] == s.row && exists p :: p in paths && At(s.row, ns, p)
      ensures forall i, p :: i in rows && p in paths && At(rows[i], ns, p) ==> Stored(i, rows[i]) in objs
    {
      objs := [];
      var todo := set i | i in rows && rows[i].ns == ns
                            && exists p :: p in paths && Lower(Str(rows[i].path)) == Lower(Str(p));
      ghost var all := todo;
      while todo != {}
        invariant todo <= all && SortedByPath(objs)
        invariant forall s :: s in objs ==> s.id in all && rows[s.id] == s.row
        invariant forall i :: i in all - todo ==> Stored(i, rows[i]) in objs
        decreases |todo|
      {
        var i :| i in todo;
        objs := Insert(objs, Stored(i, rows[i]));
        todo := todo - {i};
      }
      forall i, p | i in rows && p in paths
        ensures At(rows[i], ns, p) <==> rows[i].ns == ns && Lower(Str(rows[i].path)) == Lower(Str(p))
      {
        SameIsStringEquality(rows[i].path, p);
      }
    }
  }

  lemma MatchesNs(r: Row, ns: string, prefix: string)
    requires Matches(r, ns, prefix)
    ensures r.ns == ns
  {
  }

  function Insert(s: seq<Stored>, x: Stored): (r: seq<Stored>)
    requires SortedByPath(s)
    ensures SortedByPath(r)
    ensures forall y :: y in r <==> y in s || y == x
  {
    if s == [] then [x]
    else if LexLe(Lower(Str(x.row.path)), Lower(Str(s[0].row.path))) then InsertFront(s, x); [x] + s
    else
      var r := [s[0]] + Insert(s[1..], x);
      InsertRest(s, x, Insert(s[1..], x));
      r
  }

  lemma InsertFront(s: seq<Stored>, x: Stored)
    requires SortedByPath(s) && s != [] && LexLe(Lower(Str(x.row.path)), Lower(Str(s[0].row.path)))
    ensures SortedByPath([x] + s)
  {
    forall j | 0 < j < |s| ensures LexLe(Lower(Str(x.row.path)), Lower(Str(s[j].row.path))) {
      LexTransitive(Lower(Str(x.row.path)), Lower(Str(s[0].row.path)), Lower(Str(s[j].row.path)));
    }
  }

  lemma InsertRest(s: seq<Stored>, x: Stored, rest: seq<Stored>)
    requires SortedByPath(s) && s != [] && !LexLe(Lower(Str(x.row.path)), Lower(Str(s[0].row.path)))
    requires SortedByPath(rest) && forall y :: y in rest ==> y in s[1..] || y == x
    ensures SortedByPath([s[0]] + rest)
  {
    LexTotal(Lower(Str(x.row.path)), Lower(Str(s[0].row.path)));
    forall j | 0 <= j < |rest| ensures LexLe(Lower(Str(s[0].row.path)), Lower(Str(rest[j].row.path))) {
      assert rest[j] in rest;
    }
  }
}
