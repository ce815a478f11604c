/** The catalog's storage entity: a place where items are kept (a folder, an
    external drive, read-only media or a video shelf), the per-type policy for
    its path, the validation callback that enforces it, and the item
    association kept from both ends. */
module StorageEntity {
  import opened Php

  const TypeFolder: string := "folder"
  const TypeExternal: string := "external"
  const TypeExternalR: string := "external-r"
  const TypeVideo: string := "video"

  /** The display title of each type. */
  const TypeTitles: map<string, string> := map[
    TypeFolder := "Folder on computer (local/network)",
    TypeExternal := "External storage (HDD/Flash/SD)",
    TypeExternalR := "External storage read-only (CD/DVD)",
    TypeVideo := "Video storage (DVD/BD/VHS)"
  ]

  const PathField: string := "path"
  const PathRequiredMessage: string := "Path is required to fill for current type of storage"

  /** A constraint violation attached to one field of the validated object. */
  datatype Violation = Violation(field: string, message: string)

  /** The validator's execution context, reduced to the violations it collects. */
  class ExecutionContext {
    var violations: seq<Violation>

    constructor ()
      ensures violations == []
    {
      violations := [];
    }

    method AddViolationAt(field: string, message: string)
      modifies this
      ensures violations == old(violations) + [Violation(field, message)]
    {
      violations := violations + [Violation(field, message)];
    }
  }

  /** Doctrine's ArrayCollection::removeElement: drops the first element
      identical to x and keeps the order of the rest; without such an element
      the collection is unchanged. */
  function RemoveElement<T(==)>(s: seq<T>, x: T): (r: seq<T>)
    ensures x !in s ==> r == s
    ensures x in s ==> exists k :: 0 <= k < |s| && s[k] == x && x !in s[..k] && r == s[..k] + s[k + 1..]
    ensures multiset(r) == multiset(s) - multiset{x}
  {
    match IndexOf(s, x)
    case None =>
      assert multiset(s)[x] == 0;
      s
    case Some(k) =>
      assert s == s[..k] + [x] + s[k + 1..];
      s[..k] + s[k + 1..]
  }

  /** What removeElement keeps was already there, and when x occurred at most
      once no copy of it is kept. */
  lemma RemovedElementsKept<T>(s: seq<T>, x: T)
    ensures forall k :: 0 <= k < |RemoveElement(s, x)| ==> RemoveElement(s, x)[k] in s
    ensures multiset(s)[x] <= 1 ==> x !in RemoveElement(s, x)
  {
    var r := RemoveElement(s, x);
    forall k | 0 <= k < |r| ensures r[k] in s {
      assert r[k] in multiset(r);
    }
  }

  /** A catalog item, reduced to its link to the storage that holds it. */
  class Item {
    var storage: Storage?

    constructor ()
      ensures storage == null
    {
      storage := null;
    }

    method SetStorage(storage: Storage?) returns (r: Item)
      modifies this`storage
      ensures this.storage == storage && r == this
    {
      this.storage := storage;
      r := this;
    }
  }

  class Storage {
    /** Assigned by the persistence layer; the entity has no setter for it. */
    var id: Option<int>
    var name: Option<string>
    var description: Option<string>
    var storageType: Option<string>
    var path: Option<string>
    var items: seq<Item>

    constructor ()
      ensures id == None && name == None && description == None
      ensures storageType == None && path == None && items == []
    {
      id := None;
      name := None;
      description := None;
      storageType := None;
      path := None;
      items := [];
    }

    /** Every item in the collection names this storage as its own. */
    ghost predicate Linked()
      reads this, items
    {
      forall k :: 0 <= k < |items| ==> items[k].storage == this
    }

    method SetName(name: Option<string>) returns (r: Storage)
      modifies this`name
      ensures this.name == name && r == this
    {
      this.name := name;
      r := this;
    }

    method SetDescription(description: Option<string>) returns (r: Storage)
      modifies this`description
      ensures this.description == description && r == this
    {
      this.description := description;
      r := this;
    }

    method SetPath(path: Option<string>) returns (r: Storage)
      modifies this`path
      ensures this.path == path && r == this
    {
      this.path := path;
      r := this;
    }

    method SetType(storageType: Option<string>) returns (r: Storage)
      modifies this`storageType
      ensures this.storageType == storageType && r == this
    {
      this.storageType := storageType;
      r := this;
    }

    /** addItem: the item is linked to this storage and appended to the collection. */
    method AddItem(item: Item) returns (r: Storage)
      modifies this`items, item`storage
      ensures items == old(items) + [item] && item.storage == this && r == this
      ensures old(Linked()) ==> Linked()
    {
      var linked := item.SetStorage(this);
      items := items + [linked];
      r := this;
    }

    /** removeItem: the first occurrence of the item leaves the collection and
        the item loses its storage; no other item is touched. */
    method RemoveItem(item: Item)
      modifies this`items, item`storage
      ensures items == RemoveElement(old(items), item) && item.storage == null
      ensures old(Linked()) && multiset(old(items))[item] <= 1 ==> Linked()
    {
      RemovedElementsKept(items, item);
      items := RemoveElement(items, item);
      var _ := item.SetStorage(null);
    }

    /** The type names, in declaration order: the values the type's choice
        constraint accepts. */
    static function GetTypes(): (r: seq<string>)
      ensures r == [TypeFolder, TypeExternal, TypeExternalR, TypeVideo]
      ensures forall i, j :: 0 <= i < j < |r| ==> r[i] != r[j]
      ensures forall t :: t in r <==> t in TypeTitles
    {
      [TypeFolder, TypeExternal, TypeExternalR, TypeVideo]
    }

    /** The types the application may write files to. */
    static function GetTypesWritable(): (r: seq<string>)
      ensures forall t :: t in r <==> t == TypeFolder || t == TypeExternal
    {
      [TypeFolder, TypeExternal]
    }

    /** The types the application may read files from. */
    static function GetTypesReadable(): (r: seq<string>)
      ensures forall t :: t in r <==> t == TypeFolder || t == TypeExternal || t == TypeExternalR
    {
      [TypeFolder, TypeExternal, TypeExternalR]
    }

    /** getTypeTitle: the title of the current type; a type outside the four
        (or no type) has none. */
    function GetTypeTitle(): (r: Option<string>)
      reads this
      ensures r.Some? <==> storageType.Some? && storageType.value in GetTypes()
      ensures r.Some? ==> r.value in TypeTitles.Values
      ensures storageType == Some(TypeFolder) ==> r == Some("Folder on computer (local/network)")
      ensures storageType == Some(TypeExternal) ==> r == Some("External storage (HDD/Flash/SD)")
      ensures storageType == Some(TypeExternalR) ==> r == Some("External storage read-only (CD/DVD)")
      ensures storageType == Some(TypeVideo) ==> r == Some("Video storage (DVD/BD/VHS)")
    {
      if storageType.Some? && storageType.value in TypeTitles then Some(TypeTitles[storageType.value]) else None
    }

    /** isPathRequired: the current type is one the application writes to. */
    function IsPathRequired(): (r: bool)
      reads this
      ensures r <==> storageType == Some(TypeFolder) || storageType == Some(TypeExternal)
    {
      storageType.Some? && storageType.value in GetTypesWritable()
    }

    /** isPathValid: adds one violation on `path` when the type needs a path and
        the path is falsy (null, "" or "0"), and nothing otherwise. */
    method IsPathValid(context: ExecutionContext)
      modifies context
      ensures IsPathRequired() && !Truthy(path) ==>
                context.violations == old(context.violations) + [Violation(PathField, PathRequiredMessage)]
      ensures !(IsPathRequired() && !Truthy(path)) ==> context.violations == old(context.violations)
    {
      if IsPathRequired() && !Truthy(path) {
        context.AddViolationAt(PathField, PathRequiredMessage);
      }
    }
  }

  /** The validation flow on a fresh record: a storage built with the given
      type and path and passed through isPathValid carries exactly the
      violations the rule demands. */
  method ValidateNew(storageType: Option<string>, path: Option<string>) returns (violations: seq<Violation>)
    ensures (storageType == Some(TypeFolder) || storageType == Some(TypeExternal)) && !Truthy(path) ==>
              violations == [Violation(PathField, PathRequiredMessage)]
    ensures !((storageType == Some(TypeFolder) || storageType == Some(TypeExternal)) && !Truthy(path)) ==>
              violations == []
  {
    var storage := new Storage();
    var _ := storage.SetType(storageType);
    var _ := storage.SetPath(path);
    var context := new ExecutionContext();
    storage.IsPathValid(context);
    violations := context.violations;
  }

  /** The type policy: writable types are readable, readable types are types,
      read-only external storage is readable but not writable, and video
      storage is neither. */
  lemma TypePolicy()
    ensures forall t :: t in Storage.GetTypesWritable() ==> t in Storage.GetTypesReadable()
    ensures forall t :: t in Storage.GetTypesReadable() ==> t in Storage.GetTypes()
    ensures TypeExternalR in Storage.GetTypesReadable() && TypeExternalR !in Storage.GetTypesWritable()
    ensures TypeVideo !in Storage.GetTypesReadable() && TypeVideo !in Storage.GetTypesWritable()
  {
  }

  /** The titles are pairwise different, so a title names its type. */
  lemma TitlesDistinct(t: string, u: string)
    requires t in TypeTitles && u in TypeTitles && TypeTitles[t] == TypeTitles[u]
    ensures t == u
  {
  }
}
