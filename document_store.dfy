/** The document store of the front end: the list of documents, the document currently open,
    and the actions that add, replace, remove, tag and toggle documents in place. Documents are
    shared objects, so the open document can be the very object held in the list. */
module DocumentStore {
  import opened Common

  /** A document. An id of 0 stands for a missing (falsy) id; tags are absent until set. */
  class Doc {
    const id: int
    var isFavorite: bool
    var isPublic: bool
    var tags: Option<seq<string>>
    var readProgress: int
    var currentPage: int

    constructor (id: int, isFavorite: bool, isPublic: bool, tags: Option<seq<string>>)
      ensures this.id == id && this.isFavorite == isFavorite && this.isPublic == isPublic
      ensures this.tags == tags && readProgress == 0 && currentPage == 1
    {
      this.id := id;
      this.isFavorite := isFavorite;
      this.isPublic := isPublic;
      this.tags := tags;
      readProgress := 0;
      currentPage := 1;
    }
  }

  function IdsOf(docs: seq<Doc>): (ids: seq<int>)
    ensures |ids| == |docs| && forall k :: 0 <= k < |docs| ==> ids[k] == docs[k].id
  {
    seq(|docs|, k requires 0 <= k < |docs| => docs[k].id)
  }

  predicate UniqueIds(docs: seq<Doc>)
  {
    forall i, j :: 0 <= i < j < |docs| ==> docs[i].id != docs[j].id
  }

  /** `findIndex` by id: the first position holding the id, or -1. */
  function IndexOfId(docs: seq<Doc>, id: int): (i: int)
    ensures -1 <= i < |docs|
    ensures i >= 0 ==> docs[i].id == id && forall k :: 0 <= k < i ==> docs[k].id != id
    ensures i < 0 <==> id !in IdsOf(docs)
  {
    if docs == [] then -1
    else if docs[0].id == id then 0
    else
      var j := IndexOfId(docs[1..], id);
      assert forall k :: 1 <= k < |docs| ==> docs[k] == docs[1..][k - 1];
      if j < 0 then -1 else j + 1
  }

  // ---------------------------------------------------------------------------
  // Tag lists
  // ---------------------------------------------------------------------------

  predicate NoDuplicates(s: seq<string>)
  {
    forall i, j :: 0 <= i < j < |s| ==> s[i] != s[j]
  }

  /** The tag argument: one tag or a list of them. */
  datatype TagArg = OneTag(tag: string) | TagList(tags: seq<string>)

  function TagArray(arg: TagArg): seq<string>
  {
    match arg
    case OneTag(t) => [t]
    case TagList(ts) => ts
  }

  /** Appends each tag of `add`, in order, unless the list already holds it. */
  function AddAbsent(tags: seq<string>, add: seq<string>): (r: seq<string>)
    ensures |tags| <= |r| && r[..|tags|] == tags
    ensures forall x :: x in r <==> x in tags || x in add
    ensures NoDuplicates(tags) ==> NoDuplicates(r)
  {
    if add == [] then tags
    else
      var u := AddAbsent(tags, add[..|add| - 1]);
      var x := add[|add| - 1];
      assert forall y :: y in add ==> y in add[..|add| - 1] || y == x;
      if x in u then u else u + [x]
  }

  /** Adding tags the list already holds changes nothing. */
  lemma {:induction false} AddPresent(tags: seq<string>, add: seq<string>)
    requires forall x :: x in add ==> x in tags
    ensures AddAbsent(tags, add) == tags
  {
    if add != [] {
      AddPresent(tags, add[..|add| - 1]);
    }
  }

  /** Adding the same tags twice is adding them once. */
  lemma AddAbsentIdempotent(tags: seq<string>, add: seq<string>)
    ensures AddAbsent(AddAbsent(tags, add), add) == AddAbsent(tags, add)
  {
    AddPresent(AddAbsent(tags, add), add);
  }

  /** The tags not listed in `remove`, in their order. */
  function RemoveListed(tags: seq<string>, remove: seq<string>): (r: seq<string>)
    ensures |r| <= |tags|
    ensures forall x :: x in r <==> x in tags && x !in remove
    ensures (forall x :: x in tags ==> x !in remove) ==> r == tags
    ensures NoDuplicates(tags) ==> NoDuplicates(r)
  {
    if tags == [] then []
    else
      var init := RemoveListed(tags[..|tags| - 1], remove);
      var x := tags[|tags| - 1];
      assert forall y :: y in tags ==> y in tags[..|tags| - 1] || y == x;
      assert x in tags;
      if x in remove then init else init + [x]
  }

  /** Removing the same tags twice is removing them once. */
  lemma RemoveListedIdempotent(tags: seq<string>, remove: seq<string>)
    ensures RemoveListed(RemoveListed(tags, remove), remove) == RemoveListed(tags, remove)
  {
  }

  function OrEmpty(tags: Option<seq<string>>): seq<string>
  {
    if tags.Some? then tags.value else []
  }

  // ---------------------------------------------------------------------------
  // The store
  // ---------------------------------------------------------------------------

  /** The flags and the reading position of a document are as they were. */
  twostate predicate FlagsAndProgressKept(d: Doc)
    reads d
  {
    d.isFavorite == old(d.isFavorite) && d.isPublic == old(d.isPublic)
    && d.readProgress == old(d.readProgress) && d.currentPage == old(d.currentPage)
  }

  class Store {
    var documents: seq<Doc>
    var current: Doc?
    var page: int
    var pageSize: int

    constructor ()
      ensures documents == [] && current == null && page == 1 && pageSize == 20
    {
      documents := [];
      current := null;
      page := 1;
      pageSize := 20;
    }

    /** The listed documents and the open one: every object an action may change. */
    ghost function Touchable(): set<Doc>
      reads this
    {
      (set d | d in documents) + (if current != null then {current} else {})
    }

    /** How many times an action on `id` reaches `d`: once as the listed document with that id,
        once as the open document with that id; twice when these are one object. */
    ghost function Reached(d: Doc, id: int): nat
      reads this
    {
      var i := IndexOfId(documents, id);
      (if i >= 0 && documents[i] == d then 1 else 0)
      + (if current != null && current.id == id && current == d then 1 else 0)
    }

    /** The documents of the current page: at most a page of them. */
    function CurrentPageDocuments(): (docs: seq<Doc>)
      reads this
      ensures pageSize >= 0 ==> |docs| <= pageSize
      ensures page >= 1 && pageSize >= 0 && page * pageSize <= |documents| ==>
        docs == documents[(page - 1) * pageSize..page * pageSize]
    {
      Page(documents, page, pageSize)
    }

    /** `find` by id, or null. */
    function GetDocumentById(id: int): (d: Doc?)
      reads this
      ensures d != null ==> d in documents && d.id == id
      ensures d == null <==> id !in IdsOf(documents)
    {
      var i := IndexOfId(documents, id);
      if i >= 0 then documents[i] else null
    }

    /** A document without an id is ignored; one whose id is listed replaces the listed one in
        place; any other is put first. Ids stay unique. */
    method AddDocument(doc: Doc?)
      modifies this`documents
      ensures doc == null || doc.id == 0 ==> documents == old(documents)
      ensures doc != null && doc.id != 0 ==>
        var i := IndexOfId(old(documents), doc.id);
        documents == if i >= 0 then old(documents)[i := doc] else [doc] + old(documents)
      ensures UniqueIds(old(documents)) ==> UniqueIds(documents)
    {
      if doc != null && doc.id != 0 {
        var i := IndexOfId(documents, doc.id);
        if i >= 0 {
          documents := documents[i := doc];
        } else {
          documents := [doc] + documents;
        }
      }
    }

    /** Replaces the listed document with the same id, and the open one when it has that id. */
    method UpdateDocument(doc: Doc?)
      modifies this`documents, this`current
      ensures doc == null || doc.id == 0 ==> documents == old(documents) && current == old(current)
      ensures doc != null && doc.id != 0 ==>
        var i := IndexOfId(old(documents), doc.id);
        documents == (if i >= 0 then old(documents)[i := doc] else old(documents))
        && current == (if old(current) != null && old(current).id == doc.id then doc else old(current))
      ensures UniqueIds(old(documents)) ==> UniqueIds(documents)
    {
      if doc != null && doc.id != 0 {
        var i := IndexOfId(documents, doc.id);
        if i >= 0 {
          documents := documents[i := doc];
        }
        if current != null && current.id == doc.id {
          current := doc;
        }
      }
    }

    /** Removes the first listed document with the id, and closes the open one when it has
        that id; with unique ids none is left. */
    method RemoveDocument(id: int)
      modifies this`documents, this`current
      ensures var i := IndexOfId(old(documents), id);
        documents == if i >= 0 then old(documents)[..i] + old(documents)[i + 1..] else old(documents)
      ensures current == if old(current) != null && old(current).id == id then null else old(current)
      ensures UniqueIds(old(documents)) ==> UniqueIds(documents) && id !in IdsOf(documents)
    {
      var i := IndexOfId(documents, id);
      if i >= 0 {
        ghost var before := documents;
        documents := documents[..i] + documents[i + 1..];
        assert forall k :: 0 <= k < |documents| ==>
          documents[k] == before[if k < i then k else k + 1];
      }
      if current != null && current.id == id {
        current := null;
      }
    }

    method SetCurrentDocument(doc: Doc?)
      modifies this`current
      ensures current == doc
    {
      current := doc;
    }

    /** Flips the favourite flag of the listed document with the id, then that of the open
        document with the id. When the open document is the listed one, it is flipped twice
        and ends as it was. */
    method ToggleDocumentFavorite(id: int)
      modifies Touchable()
      ensures forall d :: d in Touchable() ==>
        d.isFavorite == (if Reached(d, id) == 1 then !old(d.isFavorite) else old(d.isFavorite))
      ensures forall d :: d in Touchable() ==>
        d.isPublic == old(d.isPublic) && d.tags == old(d.tags)
        && d.readProgress == old(d.readProgress) && d.currentPage == old(d.currentPage)
    {
      var i := IndexOfId(documents, id);
      if i >= 0 {
        documents[i].isFavorite := !documents[i].isFavorite;
      }
      if current != null && current.id == id {
        current.isFavorite := !current.isFavorite;
      }
    }

    /** The same for the public flag. */
    method ToggleDocumentPublic(id: int)
      modifies Touchable()
      ensures forall d :: d in Touchable() ==>
        d.isPublic == (if Reached(d, id) == 1 then !old(d.isPublic) else old(d.isPublic))
      ensures forall d :: d in Touchable() ==>
        d.isFavorite == old(d.isFavorite) && d.tags == old(d.tags)
        && d.readProgress == old(d.readProgress) && d.currentPage == old(d.currentPage)
    {
      var i := IndexOfId(documents, id);
      if i >= 0 {
        documents[i].isPublic := !documents[i].isPublic;
      }
      if current != null && current.id == id {
        current.isPublic := !current.isPublic;
      }
    }

    /** The favourite toggle as intended: every document the action reaches is flipped
        exactly once, whether or not the open document is the listed one. */
    method ToggleFavoriteOnce(id: int)
      modifies Touchable()
      ensures forall d :: d in Touchable() ==>
        d.isFavorite == (if Reached(d, id) >= 1 then !old(d.isFavorite) else old(d.isFavorite))
      ensures forall d :: d in Touchable() ==>
        d.isPublic == old(d.isPublic) && d.tags == old(d.tags)
        && d.readProgress == old(d.readProgress) && d.currentPage == old(d.currentPage)
    {
      var i := IndexOfId(documents, id);
      if i >= 0 {
        documents[i].isFavorite := !documents[i].isFavorite;
      }
      if current != null && current.id == id && !(i >= 0 && current == documents[i]) {
        current.isFavorite := !current.isFavorite;
      }
    }

    /** The public toggle as intended. */
    method TogglePublicOnce(id: int)
      modifies Touchable()
      ensures forall d :: d in Touchable() ==>
        d.isPublic == (if Reached(d, id) >= 1 then !old(d.isPublic) else old(d.isPublic))
      ensures forall d :: d in Touchable() ==>
        d.isFavorite == old(d.isFavorite) && d.tags == old(d.tags)
        && d.readProgress == old(d.readProgress) && d.currentPage == old(d.currentPage)
    {
      var i := IndexOfId(documents, id);
      if i >= 0 {
        documents[i].isPublic := !documents[i].isPublic;
      }
      if current != null && current.id == id && !(i >= 0 && current == documents[i]) {
        current.isPublic := !current.isPublic;
      }
    }

    /** Toggling the favourite flag twice, as intended, restores every document. */
    method ToggleFavoriteTwice(id: int)
      modifies Touchable()
      ensures forall d :: d in Touchable() ==> d.isFavorite == old(d.isFavorite)
    {
      ToggleFavoriteOnce(id);
      ToggleFavoriteOnce(id);
    }

    /** Appends each absent tag to one document, creating its tag list when it has none. */
    method AddTagsTo(d: Doc, add: seq<string>)
      modifies d
      ensures d.tags == Some(AddAbsent(OrEmpty(old(d.tags)), add))
      ensures FlagsAndProgressKept(d)
    {
      if d.tags.None? {
        d.tags := Some([]);
      }
      var i := 0;
      while i < |add|
        invariant 0 <= i <= |add|
        invariant d.tags == Some(AddAbsent(OrEmpty(old(d.tags)), add[..i]))
        invariant d.isFavorite == old(d.isFavorite) && d.isPublic == old(d.isPublic)
        invariant d.readProgress == old(d.readProgress) && d.currentPage == old(d.currentPage)
      {
        assert add[..i + 1][..i] == add[..i];
        if add[i] !in d.tags.value {
          d.tags := Some(d.tags.value + [add[i]]);
        }
        i := i + 1;
      }
      assert add[..|add|] == add;
    }

    /** Adds the absent tags to the listed and to the open document with the id. Adding is
        idempotent, so the open document being the listed one changes nothing. */
    method AddDocumentTags(id: int, tags: TagArg)
      modifies Touchable()
      ensures forall d :: d in Touchable() ==>
        d.tags == (if Reached(d, id) >= 1 then Some(AddAbsent(OrEmpty(old(d.tags)), TagArray(tags)))
                   else old(d.tags))
      ensures forall d :: d in Touchable() ==> FlagsAndProgressKept(d)
    {
      var add := TagArray(tags);
      var i := IndexOfId(documents, id);
      if i >= 0 && current == documents[i] && current.id == id {
        // one object reached twice: the second pass finds every tag present
        AddTagsTo(documents[i], add);
        AddAbsentIdempotent(OrEmpty(old(current.tags)), add);
        AddTagsTo(current, add);
      } else {
        if i >= 0 {
          AddTagsTo(documents[i], add);
        }
        if current != null && current.id == id {
          AddTagsTo(current, add);
        }
      }
    }

    /** Drops the listed tags from the listed and the open document with the id, when they
        have a tag list. */
    method RemoveDocumentTags(id: int, tags: TagArg)
      modifies Touchable()
      ensures forall d :: d in Touchable() ==>
        d.tags == (if Reached(d, id) >= 1 && old(d.tags).Some?
                   then Some(RemoveListed(old(d.tags).value, TagArray(tags)))
                   else old(d.tags))
      ensures forall d :: d in Touchable() ==>
        d.isFavorite == old(d.isFavorite) && d.isPublic == old(d.isPublic)
        && d.readProgress == old(d.readProgress) && d.currentPage == old(d.currentPage)
    {
      var remove := TagArray(tags);
      var i := IndexOfId(documents, id);
      if i >= 0 && documents[i].tags.Some? {
        documents[i].tags := Some(RemoveListed(documents[i].tags.value, remove));
      }
      if current != null && current.id == id && current.tags.Some? {
        if i >= 0 && current == documents[i] {
          RemoveListedIdempotent(old(current.tags).value, remove);
        }
        current.tags := Some(RemoveListed(current.tags.value, remove));
      }
    }

    /** Records the reading progress, and the page when one is given, on the listed and the
        open document with the id. */
    method UpdateDocumentProgress(id: int, progress: int, currentPage: Option<int>)
      modifies Touchable()
      ensures forall d :: d in Touchable() ==>
        d.readProgress == (if Reached(d, id) >= 1 then progress else old(d.readProgress))
        && d.currentPage == (if Reached(d, id) >= 1 && currentPage.Some? then currentPage.value
                             else old(d.currentPage))
      ensures forall d :: d in Touchable() ==>
        d.isFavorite == old(d.isFavorite) && d.isPublic == old(d.isPublic) && d.tags == old(d.tags)
    {
      var i := IndexOfId(documents, id);
      if i >= 0 {
        documents[i].readProgress := progress;
        if currentPage.Some? {
          documents[i].currentPage := currentPage.value;
        }
      }
      if current != null && current.id == id {
        current.readProgress := progress;
        if currentPage.Some? {
          current.currentPage := currentPage.value;
        }
      }
    }
  }

  /** Opening a listed document the usual way (looking it up, then making it the open one)
      and toggling its favourite flag leaves the flag as it was. */
  method ToggleOpenDocument() returns (before: bool, after: bool)
    ensures before == false && after == false
  {
    var store := new Store();
    var doc := new Doc(1, false, false, None);
    store.AddDocument(doc);
    var found := store.GetDocumentById(1);
    store.SetCurrentDocument(found);
    before := doc.isFavorite;
    store.ToggleDocumentFavorite(1);
    after := doc.isFavorite;
  }

  /** With the intended toggle the flag does change. */
  method ToggleOpenDocumentOnce() returns (before: bool, after: bool)
    ensures before == false && after == true
  {
    var store := new Store();
    var doc := new Doc(1, false, false, None);
    store.AddDocument(doc);
    var found := store.GetDocumentById(1);
    store.SetCurrentDocument(found);
    before := doc.isFavorite;
    store.ToggleFavoriteOnce(1);
    after := doc.isFavorite;
  }
}
