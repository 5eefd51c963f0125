/**
 * Model of the folder walk in server/app/agent/catalog_cache.py: the memoised search for the
 * nearest tagged ancestor over an arbitrary parent map (cycles and missing parents included),
 * and the domain gate that uses it.
 */
module CatalogTags {
  import opened Common

  type Text = Option<string>

  /** Python truthiness of an optional string. */
  predicate Truthy(t: Text) {
    t.Some? && t.value != ""
  }

  datatype Folder = Folder(parent: Text, tag: Text)

  type Folders = map<string, Folder>

  // ---------------------------------------------------------------------------
  // The plain definition, over the whole (possibly endless) parent chain
  // ---------------------------------------------------------------------------

  /** The k-th folder id on the chain from f; None once the chain has ended. */
  function Ancestor(folders: Folders, f: Text, k: nat): Text {
    if k == 0 then f
    else
      var below := Ancestor(folders, f, k - 1);
      if Truthy(below) && below.value in folders then folders[below.value].parent else None
  }

  /** The tag at the k-th place of the chain, if that folder exists and is tagged. */
  function TagAt(folders: Folders, f: Text, k: nat): Text {
    var a := Ancestor(folders, f, k);
    if Truthy(a) && a.value in folders && Truthy(folders[a.value].tag) then folders[a.value].tag else None
  }

  ghost predicate FirstTagAt(folders: Folders, f: Text, k: nat) {
    && TagAt(folders, f, k).Some?
    && forall j: nat :: j < k ==> TagAt(folders, f, j) == None
  }

  /** The tag of the first tagged folder on the chain, or None if there is none anywhere on it. */
  ghost function EffectiveTag(folders: Folders, f: Text): Text {
    if k: nat :| FirstTagAt(folders, f, k) then TagAt(folders, f, k) else None
  }

  lemma EffectiveTagIs(folders: Folders, f: Text, k: nat)
    requires FirstTagAt(folders, f, k)
    ensures EffectiveTag(folders, f) == TagAt(folders, f, k)
  {
  }

  lemma {:induction false} FirstTagExists(folders: Folders, f: Text, k: nat) returns (first: nat)
    requires TagAt(folders, f, k).Some?
    ensures first <= k && FirstTagAt(folders, f, first)
  {
    if j: nat :| j < k && TagAt(folders, f, j).Some? {
      first := FirstTagExists(folders, f, j);
    } else {
      first := k;
    }
  }

  lemma UntaggedChain(folders: Folders, f: Text)
    requires forall k: nat :: TagAt(folders, f, k) == None
    ensures EffectiveTag(folders, f) == None
  {
  }

  /** The result is None exactly when no folder on the chain is tagged. */
  lemma NoneMeansNoTag(folders: Folders, f: Text)
    ensures EffectiveTag(folders, f) == None <==> forall k: nat :: TagAt(folders, f, k) == None
  {
    if k: nat :| TagAt(folders, f, k).Some? {
      var first := FirstTagExists(folders, f, k);
      EffectiveTagIs(folders, f, first);
    } else {
      UntaggedChain(folders, f);
    }
  }

  /** A tagged folder answers its own tag; no folder, an empty id and an unknown one answer none. */
  lemma TaggedAnswersOwn(folders: Folders, id: string)
    ensures id != "" && id in folders && Truthy(folders[id].tag) ==> EffectiveTag(folders, Some(id)) == folders[id].tag
    ensures id == "" || id !in folders ==> EffectiveTag(folders, Some(id)) == None
    ensures EffectiveTag(folders, None) == None
  {
    assert Ancestor(folders, Some(id), 0) == Some(id);
    if id != "" && id in folders && Truthy(folders[id].tag) {
      assert FirstTagAt(folders, Some(id), 0);
      EffectiveTagIs(folders, Some(id), 0);
    }
    if id == "" || id !in folders {
      forall k: nat ensures TagAt(folders, Some(id), k) == None {
        ChainEnded(folders, Some(id), 0, k);
      }
      UntaggedChain(folders, Some(id));
    }
    forall k: nat ensures TagAt(folders, None, k) == None {
      ChainEnded(folders, None, 0, k);
    }
    UntaggedChain(folders, None);
  }

  lemma {:induction false} ChainShift(folders: Folders, f: Text, m: nat, k: nat)
    ensures Ancestor(folders, f, m + k) == Ancestor(folders, Ancestor(folders, f, m), k)
  {
    if k > 0 {
      ChainShift(folders, f, m, k - 1);
    }
  }

  /** An existing untagged folder answers what its parent answers, even when the two lie on a cycle. */
  lemma UntaggedInherits(folders: Folders, id: string)
    requires id != "" && id in folders && !Truthy(folders[id].tag)
    ensures EffectiveTag(folders, Some(id)) == EffectiveTag(folders, folders[id].parent)
  {
    var f, parent := Some(id), folders[id].parent;
    assert Ancestor(folders, f, 0) == f;
    assert Ancestor(folders, f, 1) == parent;
    forall k: nat ensures TagAt(folders, f, k + 1) == TagAt(folders, parent, k) {
      ChainShift(folders, f, 1, k);
    }
    if k: nat :| TagAt(folders, parent, k).Some? {
      var first := FirstTagExists(folders, parent, k);
      EffectiveTagIs(folders, parent, first);
      forall j: nat | j < first + 1 ensures TagAt(folders, f, j) == None {
        if j > 0 {
          assert TagAt(folders, f, (j - 1) + 1) == TagAt(folders, parent, j - 1);
        }
      }
      EffectiveTagIs(folders, f, first + 1);
    } else {
      forall k: nat ensures TagAt(folders, f, k) == None {
        if k > 0 {
          assert TagAt(folders, f, (k - 1) + 1) == TagAt(folders, parent, k - 1);
        }
      }
    }
  }

  /** Coming back to a place of the chain repeats it for ever. */
  lemma {:induction false} CycleRepeats(folders: Folders, f: Text, m: nat, n: nat, k: nat)
    requires m < n && Ancestor(folders, f, m) == Ancestor(folders, f, n)
    requires forall j: nat :: j < n ==> TagAt(folders, f, j) == None
    ensures TagAt(folders, f, k) == None
    decreases k
  {
    if k >= n {
      ChainShift(folders, f, m, k - n);
      ChainShift(folders, f, n, k - n);
      CycleRepeats(folders, f, m, n, k - (n - m));
    }
  }

  lemma {:induction false} ChainEnded(folders: Folders, f: Text, n: nat, k: nat)
    requires n <= k
    requires !Truthy(Ancestor(folders, f, n)) || Ancestor(folders, f, n).value !in folders
    ensures TagAt(folders, f, k) == None
    ensures k > n ==> Ancestor(folders, f, k) == None
  {
    if k > n {
      ChainEnded(folders, f, n, k - 1);
    }
  }

  // ---------------------------------------------------------------------------
  // The memoised walk
  // ---------------------------------------------------------------------------

  class TagWalker {
    const folders: Folders
    var effCache: map<string, Text>

    /** Every memo entry is the unmemoised answer. */
    ghost predicate Valid()
      reads this
    {
      forall f :: f in effCache ==> effCache[f] == EffectiveTag(folders, Some(f))
    }

    constructor (folders: Folders)
      ensures Valid() && this.folders == folders && effCache == map[]
    {
      this.folders := folders;
      effCache := map[];
    }

    method Effective(folderId: Text) returns (tag: Text)
      requires Valid()
      modifies this
      ensures Valid()
      ensures tag == EffectiveTag(folders, folderId)
      ensures effCache == if Truthy(folderId) then old(effCache)[folderId.value := tag] else old(effCache)
    {
      if !Truthy(folderId) {
        forall k: nat ensures TagAt(folders, folderId, k) == None {
          ChainEnded(folders, folderId, 0, k);
        }
        return None;
      }
      if folderId.value in effCache {
        assert effCache == effCache[folderId.value := effCache[folderId.value]];
        return effCache[folderId.value];
      }
      tag := Walk(folderId);
      effCache := effCache[folderId.value := tag];
    }

    /** The loop over `cursor` and `seen`. */
    method Walk(folderId: Text) returns (tag: Text)
      ensures tag == EffectiveTag(folders, folderId)
    {
      var seen: set<string> := {};
      var cursor := folderId;
      ghost var n := 0;
      while Truthy(cursor) && cursor.value !in seen
        invariant cursor == Ancestor(folders, folderId, n)
        invariant forall j: nat :: j < n ==> TagAt(folders, folderId, j) == None
        invariant forall id :: id in seen ==> exists j: nat :: j < n && Ancestor(folders, folderId, j) == Some(id)
        invariant seen <= folders.Keys
        decreases folders.Keys - seen
      {
        var id := cursor.value;
        if id !in folders {
          forall k: nat ensures TagAt(folders, folderId, k) == None {
            if k >= n {
              ChainEnded(folders, folderId, n, k);
            }
          }
          return None;
        }
        seen := seen + {id};
        if Truthy(folders[id].tag) {
          EffectiveTagIs(folders, folderId, n);
          return folders[id].tag;
        }
        assert Ancestor(folders, folderId, n) == Some(id);
        cursor := folders[id].parent;
        n := n + 1;
      }
      forall k: nat ensures TagAt(folders, folderId, k) == None {
        if Truthy(cursor) {
          var m: nat :| m < n && Ancestor(folders, folderId, m) == Some(cursor.value);
          CycleRepeats(folders, folderId, m, n, k);
        } else if k >= n {
          ChainEnded(folders, folderId, n, k);
        }
      }
      return None;
    }

    /** The domain gate: keeps the rows a caller may see, with their effective tags. */
    method Gate(rows: seq<string>, fileFolder: map<string, Text>, allowed: seq<string>)
      returns (catalog: seq<(string, Text)>)
      requires Valid()
      modifies this
      ensures Valid()
      ensures catalog == Visible(folders, rows, fileFolder, allowed)
    {
      catalog := [];
      for i := 0 to |rows|
        invariant Valid()
        invariant catalog == Visible(folders, rows[..i], fileFolder, allowed)
      {
        assert rows[..i + 1][..i] == rows[..i];
        var tag := Effective(FolderOf(fileFolder, rows[i]));
        if allowed != [] && (!Truthy(tag) || tag.value !in allowed) {
          continue;
        }
        catalog := catalog + [(rows[i], tag)];
      }
      assert rows[..|rows|] == rows;
    }
  }

  function FolderOf(fileFolder: map<string, Text>, file: string): Text {
    if file in fileFolder then fileFolder[file] else None
  }

  /** Without domains a caller sees every row; otherwise only rows under a folder tagged with an allowed domain. */
  ghost predicate MaySee(folders: Folders, folder: Text, allowed: seq<string>) {
    allowed == [] || exists d :: d in allowed && d != "" && EffectiveTag(folders, folder) == Some(d)
  }

  ghost function Visible(folders: Folders, rows: seq<string>, fileFolder: map<string, Text>, allowed: seq<string>)
    : seq<(string, Text)>
  {
    if rows == [] then []
    else
      var before, file := Visible(folders, rows[..|rows| - 1], fileFolder, allowed), rows[|rows| - 1];
      if MaySee(folders, FolderOf(fileFolder, file), allowed)
      then before + [(file, EffectiveTag(folders, FolderOf(fileFolder, file)))]
      else before
  }

  lemma {:induction false} VisiblePrefix(folders: Folders, rows: seq<string>, fileFolder: map<string, Text>,
                                         allowed: seq<string>, n: nat)
    requires n <= |rows|
    ensures Visible(folders, rows[..n], fileFolder, allowed) <= Visible(folders, rows, fileFolder, allowed)
    decreases |rows|
  {
    if n < |rows| {
      var init := rows[..|rows| - 1];
      VisiblePrefix(folders, init, fileFolder, allowed, n);
      assert init[..n] == rows[..n];
    } else {
      assert rows[..n] == rows;
    }
  }

  /** Row i comes through the gate exactly when its folder's tag allows it, right after the rows kept before it. */
  lemma GateKeepsAllowedRows(folders: Folders, rows: seq<string>, fileFolder: map<string, Text>, allowed: seq<string>,
                             i: nat)
    requires i < |rows|
    ensures var kept := |Visible(folders, rows[..i], fileFolder, allowed)|;
            var catalog := Visible(folders, rows, fileFolder, allowed);
            var folder := FolderOf(fileFolder, rows[i]);
            if MaySee(folders, folder, allowed)
            then kept < |catalog| && catalog[kept] == (rows[i], EffectiveTag(folders, folder))
            else
              Visible(folders, rows[..i + 1], fileFolder, allowed) == Visible(folders, rows[..i], fileFolder, allowed)
  {
    assert rows[..i + 1][..i] == rows[..i];
    VisiblePrefix(folders, rows, fileFolder, allowed, i + 1);
  }

  /** An unrestricted caller receives every row, in order, with the effective tag of its folder. */
  lemma {:induction false} UnrestrictedCallerSeesAll(folders: Folders, rows: seq<string>, fileFolder: map<string, Text>,
                                                     i: nat)
    ensures |Visible(folders, rows, fileFolder, [])| == |rows|
    ensures i < |rows| ==>
              var folder := if rows[i] in fileFolder then fileFolder[rows[i]] else None;
              Visible(folders, rows, fileFolder, [])[i] == (rows[i], EffectiveTag(folders, folder))
  {
    if rows != [] {
      UnrestrictedCallerSeesAll(folders, rows[..|rows| - 1], fileFolder, i);
    }
  }

  /** For a restricted caller row i is kept exactly when its effective tag is a nonempty text on the list. */
  lemma RestrictedRowKeptIff(folders: Folders, rows: seq<string>, fileFolder: map<string, Text>, allowed: seq<string>,
                             i: nat)
    requires allowed != [] && i < |rows|
    ensures var folder := if rows[i] in fileFolder then fileFolder[rows[i]] else None;
            var tag := EffectiveTag(folders, folder);
            Visible(folders, rows[..i + 1], fileFolder, allowed)
            == Visible(folders, rows[..i], fileFolder, allowed)
               + if tag.Some? && tag.value != "" && tag.value in allowed then [(rows[i], tag)] else []
  {
    assert rows[..i + 1][..i] == rows[..i];
  }

  /** A restricted caller never receives an untagged row, nor one whose nearest tag is outside the list. */
  lemma {:induction false} RestrictedCallerSeesOnlyAllowedTags(folders: Folders, rows: seq<string>,
                                                               fileFolder: map<string, Text>,
                                                              allowed: seq<string>, j: nat)
    requires allowed != [] && j < |Visible(folders, rows, fileFolder, allowed)|
    ensures var row := Visible(folders, rows, fileFolder, allowed)[j];
            && row.0 in rows && Truthy(row.1) && row.1.value in allowed
            && row.1 == EffectiveTag(folders, FolderOf(fileFolder, row.0))
  {
    var init := rows[..|rows| - 1];
    if j < |Visible(folders, init, fileFolder, allowed)| {
      RestrictedCallerSeesOnlyAllowedTags(folders, init, fileFolder, allowed, j);
    } else {
      assert rows[|rows| - 1] in rows;
    }
  }
}
