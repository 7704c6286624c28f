/** What MainController.update_models and getFolderTree
    (vaultlock/controllers/main_controller.py, lines 479-495 and 654-698)
    compute from the loaded credentials and folders: the filtered and
    sorted list, the per-filter counts, and where each folder sits in the
    folder tree. */
module Listing {
  import opened Common
  import opened Tables

  // ---- filtering (lines 668-687) ----

  /** The non-empty text of an optional column, as Python's truthiness sees it. */
  predicate HasText(v: Option<string>) {
    v.Some? && v.value != ""
  }

  /** Case-insensitive substring search on service_name or username; `q`
      is the lowered query. */
  predicate SearchHit(x: CredentialView, q: string) {
    || (HasText(x.serviceName) && Contains(Lower(x.serviceName.value), q))
    || (HasText(x.username) && Contains(Lower(x.username.value), q))
  }

  /** The test the loop of update_models applies to one item. */
  predicate Matches(x: CredentialView, filter: string, q: string) {
    && (if filter == "Deleted" then x.isDeleted else !x.isDeleted)
    && (filter == "Favourites" ==> x.favourite)
    && (filter != "All" && filter != "Deleted" && filter != "Favourites" ==> x.folder == filter)
    && (q != "" ==> SearchHit(x, q))
  }

  /** The items that pass, in their original order. */
  function Filtered(items: seq<CredentialView>, filter: string, q: string): seq<CredentialView> {
    if items == [] then []
    else
      Filtered(items[..|items| - 1], filter, q)
      + (if Matches(items[|items| - 1], filter, q) then [items[|items| - 1]] else [])
  }

  /** An item is listed exactly when it is loaded and passes the test. */
  lemma {:induction false} FilteredMembers(items: seq<CredentialView>, filter: string, q: string, x: CredentialView)
    ensures x in Filtered(items, filter, q) <==> x in items && Matches(x, filter, q)
  {
    if items != [] {
      FilteredMembers(items[..|items| - 1], filter, q, x);
      assert items == items[..|items| - 1] + [items[|items| - 1]];
    }
  }

  /** Filtering keeps the order: filtering a concatenation concatenates. */
  lemma {:induction false} FilteredAppend(a: seq<CredentialView>, b: seq<CredentialView>, filter: string, q: string)
    ensures Filtered(a + b, filter, q) == Filtered(a, filter, q) + Filtered(b, filter, q)
  {
    if b != [] {
      assert (a + b)[..|a + b| - 1] == a + b[..|b| - 1];
      FilteredAppend(a, b[..|b| - 1], filter, q);
    } else {
      assert a + b == a;
    }
  }

  /** An empty query filters on the flags and the folder alone. */
  lemma EmptyQueryIgnoresText(x: CredentialView, filter: string)
    ensures Matches(x, filter, "") <==>
              (if filter == "Deleted" then x.isDeleted else !x.isDeleted)
              && (filter == "Favourites" ==> x.favourite)
              && (filter != "All" && filter != "Deleted" && filter != "Favourites" ==> x.folder == filter)
  {
  }

  // ---- sorting (lines 689-694) ----

  /** safe_lower: the lowered service name, "" when there is none. */
  function SortKey(x: CredentialView): string {
    if HasText(x.serviceName) then Lower(x.serviceName.value) else ""
  }

  /** `x` may stay ahead of `y`: keys ascending, or descending for "ZA". */
  predicate InOrder(x: CredentialView, y: CredentialView, descending: bool) {
    if descending then LexLe(SortKey(y), SortKey(x)) else LexLe(SortKey(x), SortKey(y))
  }

  /** Put `x` in front of every item it may precede, so that it lands ahead
      of the items with an equal key that came after it. */
  function Insert(x: CredentialView, s: seq<CredentialView>, descending: bool): (r: seq<CredentialView>)
    ensures multiset(r) == multiset(s) + multiset{x}
    ensures |r| == |s| + 1
  {
    if s == [] then [x]
    else if InOrder(x, s[0], descending) then [x] + s
    else
      assert s == [s[0]] + s[1..];
      [s[0]] + Insert(x, s[1..], descending)
  }

  /** list.sort(key=safe_lower, reverse=descending): a stable sort. */
  function Sort(s: seq<CredentialView>, descending: bool): (r: seq<CredentialView>)
    ensures multiset(r) == multiset(s)
    ensures |r| == |s|
  {
    if s == [] then []
    else
      assert s == [s[0]] + s[1..];
      Insert(s[0], Sort(s[1..], descending), descending)
  }

  predicate Sorted(s: seq<CredentialView>, descending: bool) {
    forall i :: 0 <= i < |s| - 1 ==> InOrder(s[i], s[i + 1], descending)
  }

  lemma {:induction false} LexLeReflexive(a: string)
    ensures LexLe(a, a)
    decreases |a|
  {
    if a != [] {
      LexLeReflexive(a[1..]);
    }
  }

  lemma InOrderTotal(x: CredentialView, y: CredentialView, descending: bool)
    ensures InOrder(x, y, descending) || InOrder(y, x, descending)
  {
    LexLeTotal(SortKey(x), SortKey(y));
  }

  lemma {:induction false} InsertSorted(x: CredentialView, s: seq<CredentialView>, descending: bool)
    requires Sorted(s, descending)
    ensures Sorted(Insert(x, s, descending), descending)
    ensures Insert(x, s, descending) != [] &&
            (Insert(x, s, descending)[0] == x || (s != [] && Insert(x, s, descending)[0] == s[0]))
  {
    if s != [] && !InOrder(x, s[0], descending) {
      InOrderTotal(x, s[0], descending);
      InsertSorted(x, s[1..], descending);
      var t := Insert(x, s[1..], descending);
      assert Insert(x, s, descending) == [s[0]] + t;
    }
  }

  /** The sorted list is ordered by key, ascending or descending. */
  lemma {:induction false} SortSorted(s: seq<CredentialView>, descending: bool)
    ensures Sorted(Sort(s, descending), descending)
  {
    if s != [] {
      SortSorted(s[1..], descending);
      InsertSorted(s[0], Sort(s[1..], descending), descending);
    }
  }

  /** The items of `s` whose key is `k`, in order. */
  function WithKey(s: seq<CredentialView>, k: string): seq<CredentialView> {
    if s == [] then []
    else (if SortKey(s[0]) == k then [s[0]] else []) + WithKey(s[1..], k)
  }

  lemma {:induction false} InsertStable(x: CredentialView, s: seq<CredentialView>, descending: bool, k: string)
    ensures WithKey(Insert(x, s, descending), k) == (if SortKey(x) == k then [x] else []) + WithKey(s, k)
  {
    var own := if SortKey(x) == k then [x] else [];
    if s == [] {
      assert [x][0] == x && [x][1..] == [];
      assert WithKey([x], k) == own + WithKey([], k);
      assert Insert(x, s, descending) == [x];
    } else if InOrder(x, s[0], descending) {
      assert Insert(x, s, descending) == [x] + s;
      assert ([x] + s)[0] == x && ([x] + s)[1..] == s;
      assert WithKey([x] + s, k) == own + WithKey(s, k);
      assert WithKey(Insert(x, s, descending), k) == own + WithKey(s, k);
    } else {
      LexLeReflexive(SortKey(x));
      assert SortKey(x) != SortKey(s[0]);
      var t := Insert(x, s[1..], descending);
      InsertStable(x, s[1..], descending, k);
      var r := [s[0]] + t;
      assert Insert(x, s, descending) == r;
      assert r[0] == s[0] && r[1..] == t;
      var head := if SortKey(s[0]) == k then [s[0]] else [];
      assert WithKey(r, k) == head + WithKey(t, k);
      assert WithKey(s, k) == head + WithKey(s[1..], k);
      if SortKey(x) == k {
        assert head == [];
        assert WithKey(s, k) == WithKey(s[1..], k);
        assert WithKey(r, k) == WithKey(t, k);
        assert WithKey(t, k) == [x] + WithKey(s[1..], k);
      } else {
        assert WithKey(t, k) == WithKey(s[1..], k);
        assert WithKey(r, k) == WithKey(s, k);
      }
      assert WithKey(Insert(x, s, descending), k) == own + WithKey(s, k);
    }
  }

  /** The sort is stable: items with an equal key keep their order. */
  lemma {:induction false} SortStable(s: seq<CredentialView>, descending: bool, k: string)
    ensures WithKey(Sort(s, descending), k) == WithKey(s, k)
  {
    if s != [] {
      SortStable(s[1..], descending, k);
      InsertStable(s[0], Sort(s[1..], descending), descending, k);
    }
  }

  // ---- counts (lines 657-665) ----

  /** What one entry of the counts dict counts. */
  datatype Tally = Live | Favourite | Deleted | InFolder(name: string)

  predicate Counted(x: CredentialView, t: Tally) {
    match t
    case Live => !x.isDeleted
    case Favourite => x.favourite && !x.isDeleted
    case Deleted => x.isDeleted
    case InFolder(name) => x.folder == name && !x.isDeleted
  }

  function Count(items: seq<CredentialView>, t: Tally): (n: nat)
    ensures n <= |items|
  {
    if items == [] then 0
    else Count(items[..|items| - 1], t) + (if Counted(items[|items| - 1], t) then 1 else 0)
  }

  /** Every loaded item is either live or deleted. */
  lemma {:induction false} LivePlusDeleted(items: seq<CredentialView>)
    ensures Count(items, Live) + Count(items, Deleted) == |items|
  {
    if items != [] {
      LivePlusDeleted(items[..|items| - 1]);
    }
  }

  /** The three fixed entries. */
  function BaseCounts(items: seq<CredentialView>): map<string, nat> {
    map["All" := Count(items, Live), "Favourites" := Count(items, Favourite), "Deleted" := Count(items, Deleted)]
  }

  /** The counts dict after the loop over `folders`: each folder name
      overwrites whatever entry has that name. */
  function Counts(items: seq<CredentialView>, folders: seq<FolderView>): map<string, nat> {
    if folders == [] then BaseCounts(items)
    else
      var f := folders[|folders| - 1];
      Counts(items, folders[..|folders| - 1])[f.name := Count(items, InFolder(f.name))]
  }

  /** Some folder in the list is called `k`. */
  predicate NamedIn(folders: seq<FolderView>, k: string) {
    exists i :: 0 <= i < |folders| && folders[i].name == k
  }

  /** Each entry: a folder's name maps to its live count, even where the
      name is "All", "Favourites" or "Deleted", whose fixed entry it then
      replaces; every other entry is the fixed one. */
  lemma {:induction false} CountsLookup(items: seq<CredentialView>, folders: seq<FolderView>, k: string)
    ensures NamedIn(folders, k) ==> k in Counts(items, folders) && Counts(items, folders)[k] == Count(items, InFolder(k))
    ensures !NamedIn(folders, k) ==>
              (k in Counts(items, folders) <==> k in BaseCounts(items))
              && (k in BaseCounts(items) ==> Counts(items, folders)[k] == BaseCounts(items)[k])
  {
    if folders != [] {
      var init := folders[..|folders| - 1];
      CountsLookup(items, init, k);
      if folders[|folders| - 1].name != k {
        if NamedIn(folders, k) {
          var i :| 0 <= i < |folders| && folders[i].name == k;
          assert init[i].name == k;
        }
        if NamedIn(init, k) {
          var i :| 0 <= i < |init| && init[i].name == k;
          assert folders[i].name == k;
        }
      }
    }
  }

  // ---- the folder tree (lines 479-495) ----

  /** getFolderTree leaves out every folder named "No Folder". */
  predicate Shown(f: FolderView) {
    f.name != "No Folder"
  }

  /** The shown folder with id `p`, if any. */
  predicate ShownId(folders: seq<FolderView>, p: int) {
    exists i :: 0 <= i < |folders| && Shown(folders[i]) && folders[i].id == p
  }

  /** The parent a folder is attached under, or None for the root: parent_id
      set, not the folder itself, and naming a shown folder. */
  function Placement(folders: seq<FolderView>, f: FolderView): (p: Option<nat>)
    ensures p.Some? ==> p.value != f.id && ShownId(folders, p.value)
  {
    if f.parentId.Int? && f.parentId.i != 0 && f.parentId.i != f.id && f.parentId.i >= 0
       && ShownId(folders, f.parentId.i) then Some(f.parentId.i as nat)
    else None
  }

  /** The ids at the root, in list order. */
  function Roots(folders: seq<FolderView>, prefix: seq<FolderView>): seq<nat> {
    if prefix == [] then []
    else
      var f := prefix[|prefix| - 1];
      Roots(folders, prefix[..|prefix| - 1])
      + (if Shown(f) && Placement(folders, f).None? then [f.id] else [])
  }

  /** The ids under parent `p`, in list order. */
  function Children(folders: seq<FolderView>, prefix: seq<FolderView>, p: nat): seq<nat> {
    if prefix == [] then []
    else
      var f := prefix[|prefix| - 1];
      Children(folders, prefix[..|prefix| - 1], p)
      + (if Shown(f) && Placement(folders, f) == Some(p) then [f.id] else [])
  }

  /** How often `x` occurs in `s`. */
  function Occurrences(s: seq<nat>, x: nat): nat {
    if s == [] then 0 else Occurrences(s[..|s| - 1], x) + (if s[|s| - 1] == x then 1 else 0)
  }

  lemma {:induction false} RootsOccurrences(folders: seq<FolderView>, prefix: seq<FolderView>, x: nat)
    requires forall i, j :: 0 <= i < j < |prefix| ==> prefix[i].id != prefix[j].id
    ensures Occurrences(Roots(folders, prefix), x) ==
              if exists i :: 0 <= i < |prefix| && prefix[i].id == x && Shown(prefix[i]) && Placement(folders, prefix[i]).None?
              then 1 else 0
  {
    if prefix != [] {
      var init := prefix[..|prefix| - 1];
      RootsOccurrences(folders, init, x);
      OccurrencesAppend(Roots(folders, init),
        if Shown(prefix[|prefix| - 1]) && Placement(folders, prefix[|prefix| - 1]).None? then [prefix[|prefix| - 1].id] else [], x);
      if prefix[|prefix| - 1].id == x {
        assert forall i :: 0 <= i < |init| ==> init[i].id != x;
      } else {
        if exists i :: 0 <= i < |prefix| && prefix[i].id == x && Shown(prefix[i]) && Placement(folders, prefix[i]).None? {
          var i :| 0 <= i < |prefix| && prefix[i].id == x && Shown(prefix[i]) && Placement(folders, prefix[i]).None?;
          assert init[i] == prefix[i];
        }
      }
    }
  }

  lemma {:induction false} ChildrenOccurrences(folders: seq<FolderView>, prefix: seq<FolderView>, p: nat, x: nat)
    requires forall i, j :: 0 <= i < j < |prefix| ==> prefix[i].id != prefix[j].id
    ensures Occurrences(Children(folders, prefix, p), x) ==
              if exists i :: 0 <= i < |prefix| && prefix[i].id == x && Shown(prefix[i]) && Placement(folders, prefix[i]) == Some(p)
              then 1 else 0
  {
    if prefix != [] {
      var init := prefix[..|prefix| - 1];
      ChildrenOccurrences(folders, init, p, x);
      OccurrencesAppend(Children(folders, init, p),
        if Shown(prefix[|prefix| - 1]) && Placement(folders, prefix[|prefix| - 1]) == Some(p) then [prefix[|prefix| - 1].id] else [], x);
      if prefix[|prefix| - 1].id == x {
        assert forall i :: 0 <= i < |init| ==> init[i].id != x;
      } else {
        if exists i :: 0 <= i < |prefix| && prefix[i].id == x && Shown(prefix[i]) && Placement(folders, prefix[i]) == Some(p) {
          var i :| 0 <= i < |prefix| && prefix[i].id == x && Shown(prefix[i]) && Placement(folders, prefix[i]) == Some(p);
          assert init[i] == prefix[i];
        }
      }
    }
  }

  lemma {:induction false} OccurrencesAppend(a: seq<nat>, b: seq<nat>, x: nat)
    ensures Occurrences(a + b, x) == Occurrences(a, x) + Occurrences(b, x)
  {
    if b != [] {
      assert (a + b)[..|a + b| - 1] == a + b[..|b| - 1];
      OccurrencesAppend(a, b[..|b| - 1], x);
    } else {
      assert a + b == a;
    }
  }

  /** Every shown folder is placed exactly once: once at the root when it
      has no usable parent, otherwise once among its parent's children,
      and nowhere else. A folder named "No Folder" is placed nowhere. */
  lemma PlacedExactlyOnce(folders: seq<FolderView>, i: nat, p: nat)
    requires i < |folders|
    requires forall a, b :: 0 <= a < b < |folders| ==> folders[a].id != folders[b].id
    ensures var f := folders[i];
      && Occurrences(Roots(folders, folders), f.id) == (if Shown(f) && Placement(folders, f).None? then 1 else 0)
      && Occurrences(Children(folders, folders, p), f.id) == (if Shown(f) && Placement(folders, f) == Some(p) then 1 else 0)
  {
    RootsOccurrences(folders, folders, folders[i].id);
    ChildrenOccurrences(folders, folders, p, folders[i].id);
  }

  /** Two folders that are each other's parent are both attached below the
      other, so neither is reachable from the root. */
  lemma CycleNeverReachesRoot(a: FolderView, b: FolderView)
    requires a.id != b.id && Shown(a) && Shown(b) && a.id != 0 && b.id != 0
    requires a.parentId == Int(b.id) && b.parentId == Int(a.id)
    ensures Placement([a, b], a) == Some(b.id) && Placement([a, b], b) == Some(a.id)
    ensures Roots([a, b], [a, b]) == []
  {
    assert ShownId([a, b], b.id) by { assert [a, b][1] == b; }
    assert ShownId([a, b], a.id) by { assert [a, b][0] == a; }
    var fs := [a, b];
    assert fs[..1] == [a] && fs[|fs| - 1] == b;
    assert [a][..0] == [];
    assert Roots(fs, [a]) == [];
    assert Roots(fs, fs) == Roots(fs, fs[..1]) + [];
  }

  // ---- the sidebar and the selection (lines 136-153) ----

  /** sidebarFolders: the loaded folders without the "No Folder" entries,
      in their loaded order. */
  function SidebarFolders(folders: seq<FolderView>): (r: seq<FolderView>)
    ensures |r| <= |folders|
    ensures forall x :: x in r <==> x in folders && Shown(x)
  {
    if folders == [] then []
    else
      SidebarFolders(folders[..|folders| - 1])
      + (if Shown(folders[|folders| - 1]) then [folders[|folders| - 1]] else [])
  }

  /** Python's str() of a non-negative integer. */
  function Decimal(n: nat): (r: string)
    ensures r != [] && forall i :: 0 <= i < |r| ==> '0' <= r[i] <= '9'
  {
    if n < 10 then ['0' + n as char]
    else Decimal(n / 10) + ['0' + (n % 10) as char]
  }

  /** selectedItem: the first loaded item whose id prints as the selected
      id, or None where the source returns an empty map. */
  function SelectedItem(items: seq<CredentialView>, selectedId: string): (r: Option<CredentialView>)
    ensures r.Some? ==> r.value in items && Decimal(r.value.id) == selectedId
    ensures r.None? <==> forall i :: 0 <= i < |items| ==> Decimal(items[i].id) != selectedId
  {
    if items == [] then None
    else if Decimal(items[0].id) == selectedId then Some(items[0])
    else
      var rest := SelectedItem(items[1..], selectedId);
      assert forall i :: 1 <= i < |items| ==> items[1..][i - 1] == items[i];
      rest
  }
}
