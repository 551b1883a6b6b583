/**
 * The search front end's selection stores: which clusters and documents the
 * user has selected, and which documents the result list shows as a result.
 *
 * Each store is an immutable value here; every mutating operation of the
 * original store returns the store's next state instead.
 */
module Selection {
  import opened Wrappers

  type DocumentId = string

  /** A selection store: a set of selected items (clusters or documents). */
  datatype ItemSelection<T(==)> = ItemSelection(selected: set<T>)

  /** Membership test of the selection store. */
  function IsSelected<T(==)>(s: ItemSelection<T>, item: T): (r: bool)
    ensures r <==> item in s.selected
  {
    item in s.selected
  }

  /** Empties the selection one element at a time, as the store does. */
  method Clear<T(==)>(s: ItemSelection<T>) returns (r: ItemSelection<T>)
    ensures r.selected == {}
  {
    var selected := s.selected;
    while selected != {}
      decreases |selected|
    {
      var c :| c in selected;
      selected := selected - {c};
    }
    r := ItemSelection(selected);
  }

  lemma SingletonIsOnlyMember<T>(s: set<T>, item: T)
    requires |s| == 1 && item in s
    ensures s == {item}
  {
    assert |s - {item}| == 0;
    assert s - {item} == {};
  }

  /**
   * Toggles one item. Without keepSelection the item becomes the only
   * selected item, unless it already was, in which case the selection is
   * emptied. With keepSelection only the item's own membership flips.
   */
  method ToggleSelection<T(==)>(s: ItemSelection<T>, item: T, keepSelection: bool) returns (r: ItemSelection<T>)
    ensures !keepSelection && s.selected == {item} ==> r.selected == {}
    ensures !keepSelection && s.selected != {item} ==> r.selected == {item}
    ensures keepSelection ==> (item in r.selected <==> item !in s.selected)
    ensures keepSelection ==> forall x :: x != item ==> (x in r.selected <==> x in s.selected)
  {
    var current := s;
    if !keepSelection {
      if |current.selected| == 1 && item in current.selected {
        SingletonIsOnlyMember(current.selected, item);
        return ItemSelection(current.selected - {item});
      }
      current := Clear(current);
    }
    if IsSelected(current, item) {
      r := ItemSelection(current.selected - {item});
    } else {
      r := ItemSelection(current.selected + {item});
    }
  }

  /** Removes, one at a time, every member of current that is not in keep. */
  method RetainAll<T(==)>(current: set<T>, keep: set<T>) returns (r: set<T>)
    ensures r == current * keep
  {
    r := current;
    var pending := current;
    while pending != {}
      invariant pending <= current
      invariant r == pending + ((current - pending) * keep)
      decreases |pending|
    {
      var c :| c in pending;
      if c !in keep {
        r := r - {c};
      }
      pending := pending - {c};
    }
  }

  /** Adds the elements of items, in order, to current. */
  method AddEach<T(==)>(current: set<T>, items: seq<T>) returns (r: set<T>)
    ensures forall x :: x in r <==> x in current || x in items
  {
    r := current;
    var k := 0;
    while k < |items|
      invariant 0 <= k <= |items|
      invariant forall x :: x in r <==> x in current || x in items[..k]
    {
      assert items[..k + 1] == items[..k] + [items[k]];
      r := r + {items[k]};
      k := k + 1;
    }
    assert items[..k] == items;
  }

  /**
   * Makes the selection equal to the elements of items: first removes the
   * members that are not among them, then adds every one of them.
   */
  method ReplaceSelection<T(==)>(s: ItemSelection<T>, items: seq<T>) returns (r: ItemSelection<T>)
    ensures r.selected == set i | i in items
  {
    var itemSet := set i | i in items;
    var retained := RetainAll(s.selected, itemSet);
    var selected := AddEach(retained, items);
    r := ItemSelection(selected);
  }

  /** A document of the result list; only its identifier matters here. */
  datatype Document = Document(id: DocumentId)

  /** The document visibility store: the identifiers the result list shows. */
  datatype Visibility = Visibility(visibleDocumentIds: set<DocumentId>)

  /** With nothing in the visible set every document is shown; otherwise only the listed ones. */
  function IsVisible(v: Visibility, d: Document): (r: bool)
    ensures v.visibleDocumentIds == {} ==> r
    ensures v.visibleDocumentIds != {} ==> (r <==> d.id in v.visibleDocumentIds)
  {
    if |v.visibleDocumentIds| == 0 then true else d.id in v.visibleDocumentIds
  }

  /**
   * Makes the visible set equal to the given one: removes the identifiers
   * that are not in it, then adds all of its identifiers.
   */
  method ReplaceVisible(v: Visibility, newVisible: set<DocumentId>) returns (r: Visibility)
    ensures r.visibleDocumentIds == newVisible
  {
    var visible := v.visibleDocumentIds;
    var pending := v.visibleDocumentIds;
    while pending != {}
      invariant pending <= v.visibleDocumentIds
      invariant visible == pending + ((v.visibleDocumentIds - pending) * newVisible)
      decreases |pending|
    {
      var oldId :| oldId in pending;
      if oldId !in newVisible {
        visible := visible - {oldId};
      }
      pending := pending - {oldId};
    }
    var toAdd := newVisible;
    while toAdd != {}
      invariant toAdd <= newVisible
      invariant visible == (v.visibleDocumentIds * newVisible) + (newVisible - toAdd)
      decreases |toAdd|
    {
      var newId :| newId in toAdd;
      visible := visible + {newId};
      toAdd := toAdd - {newId};
    }
    r := Visibility(visible);
  }

  /**
   * A cluster of the cluster tree: the documents assigned to it directly and
   * its nested clusters (a cluster without nested clusters has none here).
   */
  datatype Cluster = Cluster(documents: seq<DocumentId>, clusters: seq<Cluster>)

  /** Adds the documents of every cluster of cs and of all their nested clusters to acc. */
  function AddDocumentsFromClusters(cs: seq<Cluster>, acc: set<DocumentId>): (r: set<DocumentId>)
    ensures acc <= r
    decreases cs
  {
    if |cs| == 0 then acc else AddDocumentsFromClusters(cs[1..], AddDocumentsFromCluster(cs[0], acc))
  }

  /** Adds the documents of c and of all its nested clusters to acc. */
  function AddDocumentsFromCluster(c: Cluster, acc: set<DocumentId>): (r: set<DocumentId>)
    ensures acc <= r
    decreases c
  {
    AddDocumentsFromClusters(c.clusters, acc + set d | d in c.documents)
  }

  /** inner is root itself or a cluster nested, at any depth, inside root. */
  ghost predicate Within(inner: Cluster, root: Cluster)
    decreases root
  {
    inner == root || exists i :: 0 <= i < |root.clusters| && Within(inner, root.clusters[i])
  }

  /** Document d is assigned to root or to some cluster nested inside it. */
  ghost predicate Covers(root: Cluster, d: DocumentId) {
    exists inner :: Within(inner, root) && d in inner.documents
  }

  /** Covers, one level at a time: the cluster's own documents or those covered by a child. */
  lemma CoversUnfold(c: Cluster, d: DocumentId)
    ensures Covers(c, d) <==> d in c.documents || exists i :: 0 <= i < |c.clusters| && Covers(c.clusters[i], d)
  {
  }

  /**
   * The recursive collection yields exactly acc together with every
   * document some cluster of cs, or some cluster nested in one, holds.
   */
  lemma {:induction false} AddDocumentsFromClustersCollectsTree(cs: seq<Cluster>, acc: set<DocumentId>, d: DocumentId)
    ensures d in AddDocumentsFromClusters(cs, acc) <==> d in acc || exists i :: 0 <= i < |cs| && Covers(cs[i], d)
    decreases cs
  {
    if |cs| > 0 {
      var acc' := AddDocumentsFromCluster(cs[0], acc);
      AddDocumentsFromClusterCollectsTree(cs[0], acc, d);
      AddDocumentsFromClustersCollectsTree(cs[1..], acc', d);
      if exists i :: 0 <= i < |cs| && Covers(cs[i], d) {
        var i :| 0 <= i < |cs| && Covers(cs[i], d);
        if i > 0 {
          assert cs[1..][i - 1] == cs[i];
        }
      }
      if exists j :: 0 <= j < |cs[1..]| && Covers(cs[1..][j], d) {
        var j :| 0 <= j < |cs[1..]| && Covers(cs[1..][j], d);
        assert Covers(cs[j + 1], d);
      }
    }
  }

  /** The recursive collection for one cluster adds exactly the documents its subtree covers. */
  lemma {:induction false} AddDocumentsFromClusterCollectsTree(c: Cluster, acc: set<DocumentId>, d: DocumentId)
    ensures d in AddDocumentsFromCluster(c, acc) <==> d in acc || Covers(c, d)
    decreases c
  {
    CoversUnfold(c, d);
    AddDocumentsFromClustersCollectsTree(c.clusters, acc + (set x | x in c.documents), d);
  }

  /**
   * The derived visible set: the documents covered by every selected
   * cluster's subtree, plus the identifiers of the selected documents.
   */
  method DerivedVisibleDocuments(clusterSelection: ItemSelection<Cluster>, documentSelection: ItemSelection<Document>)
    returns (ids: set<DocumentId>)
    ensures forall d :: d in ids <==>
      (exists c :: c in clusterSelection.selected && Covers(c, d)) ||
      (exists doc :: doc in documentSelection.selected && doc.id == d)
  {
    ids := {};
    var pending := clusterSelection.selected;
    while pending != {}
      invariant pending <= clusterSelection.selected
      invariant forall d :: d in ids <==> exists c :: c in clusterSelection.selected - pending && Covers(c, d)
      decreases |pending|
    {
      var c :| c in pending;
      ghost var before := ids;
      ids := AddDocumentsFromCluster(c, ids);
      forall d
        ensures d in ids <==> d in before || Covers(c, d)
      {
        AddDocumentsFromClusterCollectsTree(c, before, d);
      }
      pending := pending - {c};
    }
    ghost var fromClusters := ids;
    var docs := documentSelection.selected;
    while docs != {}
      invariant docs <= documentSelection.selected
      invariant forall d :: d in ids <==>
        (d in fromClusters || exists doc :: doc in documentSelection.selected - docs && doc.id == d)
      decreases |docs|
    {
      var doc :| doc in docs;
      ids := ids + {doc.id};
      docs := docs - {doc};
    }
  }

  /** Identity of a cluster list the cluster store received; each new result list gets a new one. */
  type ClusterListIdentity = nat

  /** All stores of the search front end that take part in selection. */
  datatype Stores = Stores(
    clusterSelection: ItemSelection<Cluster>,
    documentSelection: ItemSelection<Document>,
    visibility: Visibility,
    previousClusters: Option<ClusterListIdentity>
  )

  /** The reaction to a selection change: the visibility store is set to the derived visible set. */
  method OnSelectionChange(s: Stores) returns (r: Stores)
    ensures r.clusterSelection == s.clusterSelection && r.documentSelection == s.documentSelection
    ensures r.previousClusters == s.previousClusters
    ensures forall d :: d in r.visibility.visibleDocumentIds <==>
      (exists c :: c in s.clusterSelection.selected && Covers(c, d)) ||
      (exists doc :: doc in s.documentSelection.selected && doc.id == d)
  {
    var ids := DerivedVisibleDocuments(s.clusterSelection, s.documentSelection);
    var v := ReplaceVisible(s.visibility, ids);
    r := s.(visibility := v);
  }

  /**
   * The reaction to a change of the cluster store: when the current cluster
   * list is not the one seen last time, the cluster selection is cleared and
   * the current list remembered; otherwise nothing changes.
   */
  method OnClustersChange(s: Stores, current: Option<ClusterListIdentity>) returns (r: Stores)
    ensures current != s.previousClusters ==>
      r.clusterSelection.selected == {} && r.previousClusters == current
    ensures current == s.previousClusters ==> r == s
    ensures r.documentSelection == s.documentSelection && r.visibility == s.visibility
  {
    r := s;
    if current != s.previousClusters {
      var cleared := Clear(s.clusterSelection);
      r := s.(clusterSelection := cleared, previousClusters := current);
    }
  }
}
