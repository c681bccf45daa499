/** `FileItem`: one node of a drive listing, its path and its classification. */
module FileItems {
  import opened Wrappers
  import opened Strings

  /** The MIME type Google Drive gives folders. */
  const FolderType: string := "application/vnd.google-apps.folder"

  /** The fields of a Google Drive file that the conversion reads. */
  datatype GoogleFile = GoogleFile(
    id: string,
    name: string,
    mimeType: string,
    parents: Option<seq<string>>,
    description: Option<string>,
    md5Checksum: Option<string>,
    version: Option<int>,
    size: Option<int>)

  /** A drive item. `parent` is the non-owning link `FullName` follows; an item reached
      through it is a value, so every parent chain is finite. */
  datatype FileItem = FileItem(
    name: string,
    itemType: string,
    id: string,
    description: Option<string>,
    children: Option<seq<FileItem>>,
    version: Option<int>,
    binary: bool,
    size: Option<int>,
    parent: Option<FileItem>,
    parentId: Option<string>,
    actions: seq<string>)

  /** `IsFolder` */
  predicate IsFolder(item: FileItem) {
    item.itemType == FolderType
  }

  /** `FullName`: the item's name, after its parent's full name and a slash. */
  function FullName(item: FileItem): (r: string)
    ensures EndsWith(r, item.name)
    decreases item
  {
    match item.parent
    case None => item.name
    case Some(p) =>
      var r := FullName(p) + "/" + item.name;
      assert r[|r| - |item.name|..] == item.name;
      r
  }

  /** The number of ancestors above the item. */
  function Depth(item: FileItem): nat
    decreases item
  {
    match item.parent
    case None => 0
    case Some(p) => 1 + Depth(p)
  }

  /** The names along the parent chain, the topmost ancestor's first, the item's last. */
  function Lineage(item: FileItem): (names: seq<string>)
    ensures |names| == Depth(item) + 1
    ensures names[|names| - 1] == item.name
    decreases item
  {
    match item.parent
    case None => [item.name]
    case Some(p) => Lineage(p) + [item.name]
  }

  /** The full name is the names of the parent chain joined with slashes, from the topmost
      ancestor down to the item; an item without a parent is just its name. */
  lemma {:induction false} FullNameIsLineage(item: FileItem)
    ensures FullName(item) == Join(Lineage(item), "/")
    ensures item.parent.None? ==> FullName(item) == item.name
    decreases item
  {
    match item.parent
    case None =>
    case Some(p) =>
      FullNameIsLineage(p);
      JoinSnoc(Lineage(p), "/", item.name);
  }

  /** An item's full name extends its parent's by a slash and its own name. */
  lemma FullNameExtendsParent(item: FileItem)
    requires item.parent.Some?
    ensures StartsWith(FullName(item), FullName(item.parent.value) + "/")
  {
    var prefix := FullName(item.parent.value) + "/";
    assert FullName(item) == prefix + item.name;
    assert (prefix + item.name)[..|prefix|] == prefix;
  }

  /** `parents?.FirstOrDefault()` */
  function FirstParent(parents: Option<seq<string>>): Option<string>
  {
    if parents.Some? && |parents.value| > 0 then Some(parents.value[0]) else None
  }

  /** `new FileItem(GoogleFile file)` */
  function FromGoogleFile(file: GoogleFile): (item: FileItem)
    ensures item.id == file.id && item.name == file.name && item.itemType == file.mimeType
    ensures item.description == file.description && item.version == file.version && item.size == file.size
    ensures item.binary <==> file.md5Checksum.Some?
    ensures item.parentId.Some? <==> file.parents.Some? && |file.parents.value| > 0
    ensures item.parentId.Some? ==> item.parentId.value == file.parents.value[0]
    ensures item.parent.None? && item.children.None? && item.actions == []
    ensures IsFolder(item) <==> file.mimeType == FolderType
    ensures FullName(item) == file.name
  {
    FileItem(
      name := file.name,
      itemType := file.mimeType,
      id := file.id,
      description := file.description,
      children := None,
      version := file.version,
      binary := file.md5Checksum != None,
      size := file.size,
      parent := None,
      parentId := FirstParent(file.parents),
      actions := [])
  }
}
