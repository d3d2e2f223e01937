/** The menu item service: validation of new items and their photo upload,
    listing, lookup and deletion, over a repository of menu items. */
module MenuItems {
  import opened Wrappers
  import opened Errors
  import opened Guids

  /** `MenuItemCategory`, by its underlying enum value. */
  type Category = int

  datatype MenuItem = MenuItem(
    id: Guid, name: string, price: real, description: string,
    category: Category, isVegan: bool, photoPath: string)

  datatype MenuItemViewModel = MenuItemViewModel(
    id: Guid, name: string, description: string, price: real,
    category: Category, isVegan: bool, photoPath: string)

  datatype AddToCartViewModel = AddToCartViewModel(item: MenuItemViewModel)

  /** The uploaded photo: its client-side name, size in bytes and MIME type. */
  datatype FormFile = FormFile(fileName: string, length: int, contentType: string)

  datatype CreateMenuItemViewModel = CreateMenuItemViewModel(
    name: string, price: real, description: string,
    category: Category, isVegan: bool, file: Option<FormFile>)

  /** `vm` carries every field of `item`. */
  predicate Copies(vm: MenuItemViewModel, item: MenuItem) {
    vm.id == item.id && vm.name == item.name && vm.description == item.description
    && vm.price == item.price && vm.category == item.category
    && vm.isVegan == item.isVegan && vm.photoPath == item.photoPath
  }

  function ToViewModel(item: MenuItem): (vm: MenuItemViewModel)
    ensures Copies(vm, item)
  {
    MenuItemViewModel(item.id, item.name, item.description, item.price,
                      item.category, item.isVegan, item.photoPath)
  }

  /* ---------------- Repository ---------------- */

  predicate DistinctIds(items: seq<MenuItem>) {
    forall i, j | 0 <= i < j < |items| :: items[i].id != items[j].id
  }

  predicate DistinctNames(items: seq<MenuItem>) {
    forall i, j | 0 <= i < j < |items| :: items[i].name != items[j].name
  }

  predicate HasId(items: seq<MenuItem>, id: Guid) {
    exists i | 0 <= i < |items| :: items[i].id == id
  }

  predicate HasName(items: seq<MenuItem>, name: string) {
    exists i | 0 <= i < |items| :: items[i].name == name
  }

  /** The first item with the given id. */
  function FindById(items: seq<MenuItem>, id: Guid): (r: Option<MenuItem>)
    ensures r.None? <==> !HasId(items, id)
    ensures r.Some? ==> r.value in items && r.value.id == id
  {
    if items == [] then None
    else if items[0].id == id then Some(items[0])
    else
      var r := FindById(items[1..], id);
      assert HasId(items, id) ==> items[0].id == id || HasId(items[1..], id) by {
        if HasId(items, id) {
          var i :| 0 <= i < |items| && items[i].id == id;
          if i > 0 { assert items[1..][i - 1].id == id; }
        }
      }
      r
  }

  /** The first item with the given name. */
  function FindByName(items: seq<MenuItem>, name: string): (r: Option<MenuItem>)
    ensures r.None? <==> !HasName(items, name)
    ensures r.Some? ==> r.value in items && r.value.name == name
  {
    if items == [] then None
    else if items[0].name == name then Some(items[0])
    else
      var r := FindByName(items[1..], name);
      assert HasName(items, name) ==> items[0].name == name || HasName(items[1..], name) by {
        if HasName(items, name) {
          var i :| 0 <= i < |items| && items[i].name == name;
          if i > 0 { assert items[1..][i - 1].name == name; }
        }
      }
      r
  }

  /** `items` without the item whose id is `id`. */
  function WithoutId(items: seq<MenuItem>, id: Guid): (r: seq<MenuItem>)
    ensures forall x :: x in r <==> x in items && x.id != id
    ensures |r| <= |items|
  {
    if items == [] then []
    else if items[0].id == id then WithoutId(items[1..], id)
    else [items[0]] + WithoutId(items[1..], id)
  }

  /** What the listing asks the repository for. */
  datatype Filter =
    | AllItems
    | ByCategory(categories: seq<Category>)
    | ByVegan(isVegan: bool)
    | ByVeganAndCategory(isVegan: bool, categories: seq<Category>)

  predicate Matches(item: MenuItem, filter: Filter) {
    match filter
    case AllItems => true
    case ByCategory(cs) => item.category in cs
    case ByVegan(v) => item.isVegan == v
    case ByVeganAndCategory(v, cs) => item.isVegan == v && item.category in cs
  }

  /** The repository's listing: the matching items, in repository order. */
  function Select(items: seq<MenuItem>, filter: Filter): (r: seq<MenuItem>)
    ensures forall x :: x in r <==> x in items && Matches(x, filter)
    ensures |r| <= |items|
  {
    if items == [] then []
    else if Matches(items[0], filter) then [items[0]] + Select(items[1..], filter)
    else Select(items[1..], filter)
  }

  /** The menu item table behind `IMenuItemRepository`. */
  class MenuItemRepository {
    var items: seq<MenuItem>

    /** Ids are the table's primary key. */
    ghost predicate Valid()
      reads this
    {
      DistinctIds(items)
    }

    constructor ()
      ensures Valid() && items == []
    {
      items := [];
    }

    function GetItemById(id: Guid): Option<MenuItem>
      reads this
    {
      FindById(items, id)
    }

    function GetItemByName(name: string): Option<MenuItem>
      reads this
    {
      FindByName(items, name)
    }

    function GetAllMenuItems(filter: Filter): seq<MenuItem>
      reads this
    {
      Select(items, filter)
    }

    /** Inserting a row whose key is already taken is refused by the
        table, so the caller must bring a fresh id. */
    method AddItem(item: MenuItem)
      requires Valid() && !HasId(items, item.id)
      modifies this
      ensures items == old(items) + [item]
      ensures Valid()
    {
      items := items + [item];
    }

    method DeleteItem(item: MenuItem)
      requires Valid()
      modifies this
      ensures items == WithoutId(old(items), item.id)
      ensures Valid()
    {
      WithoutIdKeepsIds(items, item.id);
      items := WithoutId(items, item.id);
    }
  }

  lemma TailDistinct(items: seq<MenuItem>)
    requires items != []
    ensures DistinctIds(items) ==> DistinctIds(items[1..])
    ensures DistinctNames(items) ==> DistinctNames(items[1..])
    ensures forall x | x in items[1..] :: x in items
  {
    var tail := items[1..];
    forall i, j | 0 <= i < j < |tail| ensures tail[i] == items[i + 1] && tail[j] == items[j + 1] {}
  }

  lemma HasIdCons(items: seq<MenuItem>, id: Guid)
    requires items != []
    ensures HasId(items, id) <==> items[0].id == id || HasId(items[1..], id)
  {
    if HasId(items, id) {
      var i :| 0 <= i < |items| && items[i].id == id;
      if i > 0 { assert items[1..][i - 1].id == id; }
    }
    if HasId(items[1..], id) {
      var i :| 0 <= i < |items[1..]| && items[1..][i].id == id;
      assert items[i + 1].id == id;
    }
  }

  /** Removing an item keeps ids distinct. */
  lemma {:induction false} WithoutIdKeepsIds(items: seq<MenuItem>, id: Guid)
    requires DistinctIds(items)
    ensures DistinctIds(WithoutId(items, id))
  {
    if items != [] {
      TailDistinct(items);
      WithoutIdKeepsIds(items[1..], id);
      var r := WithoutId(items[1..], id);
      if items[0].id != id {
        forall x | x in r ensures x.id != items[0].id {
          var j :| 0 <= j < |items[1..]| && items[1..][j] == x;
          assert items[j + 1] == x;
        }
        ConsDistinctIds(items[0], r);
      }
    }
  }

  lemma ConsDistinctIds(x: MenuItem, r: seq<MenuItem>)
    requires DistinctIds(r) && forall y | y in r :: y.id != x.id
    ensures DistinctIds([x] + r)
  {
    var r' := [x] + r;
    forall i, j | 0 <= i < j < |r'| ensures r'[i].id != r'[j].id {
      if i == 0 { assert r'[j] in r; } else { assert r'[i] == r[i - 1] && r'[j] == r[j - 1]; }
    }
  }

  /** Removing an item keeps names distinct. */
  lemma {:induction false} WithoutIdKeepsNames(items: seq<MenuItem>, id: Guid)
    requires DistinctNames(items)
    ensures DistinctNames(WithoutId(items, id))
  {
    if items != [] {
      TailDistinct(items);
      WithoutIdKeepsNames(items[1..], id);
      var r := WithoutId(items[1..], id);
      if items[0].id != id {
        forall x | x in r ensures x.name != items[0].name {
          var j :| 0 <= j < |items[1..]| && items[1..][j] == x;
          assert items[j + 1] == x;
        }
        ConsDistinctNames(items[0], r);
      }
    }
  }

  lemma ConsDistinctNames(x: MenuItem, r: seq<MenuItem>)
    requires DistinctNames(r) && forall y | y in r :: y.name != x.name
    ensures DistinctNames([x] + r)
  {
    var r' := [x] + r;
    forall i, j | 0 <= i < j < |r'| ensures r'[i].name != r'[j].name {
      if i == 0 { assert r'[j] in r; } else { assert r'[i] == r[i - 1] && r'[j] == r[j - 1]; }
    }
  }

  /** With distinct ids, removing a present id removes exactly one item. */
  lemma {:induction false} WithoutIdLength(items: seq<MenuItem>, id: Guid)
    requires DistinctIds(items)
    ensures |WithoutId(items, id)| == if HasId(items, id) then |items| - 1 else |items|
  {
    if items != [] {
      TailDistinct(items);
      HasIdCons(items, id);
      WithoutIdLength(items[1..], id);
    }
  }

  /* ---------------- File checks ---------------- */

  /** `Path.GetExtension` with `/` as the directory separator: the part of
      the last path segment from its last dot, or "" when there is no dot or
      the dot is the last character. */
  function GetExtension(path: string): string {
    ExtensionBefore(path, |path|)
  }

  /** The scan of `GetExtension` from position `i - 1` down to 0. */
  function ExtensionBefore(path: string, i: nat): (ext: string)
    requires i <= |path|
    requires forall k | i <= k < |path| :: path[k] != '.' && path[k] != '/'
    ensures ext != "" ==> 2 <= |ext| <= |path| && ext[0] == '.' && path[|path| - |ext|..] == ext
    ensures ext != "" ==> '.' !in ext[1..] && '/' !in ext
    decreases i
  {
    if i == 0 then ""
    else if path[i - 1] == '.' then
      if i != |path| then path[i - 1..] else ""
    else if path[i - 1] == '/' then ""
    else ExtensionBefore(path, i - 1)
  }

  /** A file name ending in a dot and a dot-free, separator-free suffix has
      that suffix as its extension. */
  lemma {:induction false} GetExtensionOf(stem: string, e: string)
    requires e != [] && '.' !in e && '/' !in e
    ensures GetExtension(stem + "." + e) == "." + e
  {
    var path := stem + "." + e;
    var n := |stem| + 1;
    forall i | n <= i <= |path|
      ensures ExtensionBefore(path, i) == ExtensionBefore(path, n)
    {
      ExtensionSkip(path, n, i);
    }
    assert path[n - 1] == '.';
    assert path[n - 1..] == "." + e;
  }

  lemma {:induction false} ExtensionSkip(path: string, n: nat, i: nat)
    requires 0 < n <= i <= |path|
    requires forall k | n <= k < |path| :: path[k] != '.' && path[k] != '/'
    ensures ExtensionBefore(path, i) == ExtensionBefore(path, n)
    decreases i
  {
    if i > n {
      ExtensionSkip(path, n, i - 1);
    }
  }

  /** `s.Replace(".", "")`. */
  function RemoveDots(s: string): (r: string)
    ensures '.' !in r
    ensures forall c | c != '.' :: c in r <==> c in s
  {
    if s == [] then []
    else if s[0] == '.' then RemoveDots(s[1..])
    else [s[0]] + RemoveDots(s[1..])
  }

  function LowerChar(c: char): char {
    if 'A' <= c <= 'Z' then (c as int - 'A' as int + 'a' as int) as char else c
  }

  /** `ToLowerInvariant` on ASCII letters; other characters are kept. */
  function ToLower(s: string): (r: string)
    ensures |r| == |s| && forall k | 0 <= k < |s| :: r[k] == LowerChar(s[k])
  {
    seq(|s|, k requires 0 <= k < |s| => LowerChar(s[k]))
  }

  /** Ordinal `string.Contains`. */
  predicate ContainsText(s: string, part: string) {
    exists k | 0 <= k <= |s| - |part| :: PartAt(s, part, k)
  }

  predicate PartAt(s: string, part: string, k: int)
    requires 0 <= k <= |s| - |part|
  {
    s[k..k + |part|] == part
  }

  const AllowedExtensions: seq<string> := ["jpg", "jpeg", "png"]
  const MaxFileLength := 5 * 1024 * 1024
  const ImageMarker := "image/"

  /** The extension the service compares with the whitelist. */
  function NormalizedExtension(fileName: string): string {
    ToLower(RemoveDots(GetExtension(fileName)))
  }

  /** The three checks on an attached file, in the source's order. */
  function CheckFile(file: FormFile): (r: Option<Error>)
    ensures r.None? <==>
      NormalizedExtension(file.fileName) in AllowedExtensions
      && file.length <= MaxFileLength
      && ContainsText(ToLower(file.contentType), ImageMarker)
    ensures NormalizedExtension(file.fileName) !in AllowedExtensions ==>
      r == Some(ArgumentException(UnsupportedExtension))
    ensures NormalizedExtension(file.fileName) in AllowedExtensions && file.length > MaxFileLength ==>
      r == Some(ArgumentException(FileTooLarge))
    ensures r.Some? ==> r.value.ArgumentException?
  {
    if NormalizedExtension(file.fileName) !in AllowedExtensions then Some(ArgumentException(UnsupportedExtension))
    else if file.length > MaxFileLength then Some(ArgumentException(FileTooLarge))
    else if !ContainsText(ToLower(file.contentType), ImageMarker) then Some(ArgumentException(NotAnImage))
    else None
  }

  /** The extension check looks only at the part after the last dot and
      ignores letter case. */
  lemma ExtensionIgnoresCase(stem: string, e: string)
    requires e != [] && '.' !in e && '/' !in e
    ensures NormalizedExtension(stem + "." + e) == ToLower(e)
  {
    GetExtensionOf(stem, e);
    assert ("." + e)[1..] == e;
    assert RemoveDots("." + e) == RemoveDots(e);
    RemoveDotsFree(e);
  }

  lemma {:induction false} RemoveDotsFree(s: string)
    requires '.' !in s
    ensures RemoveDots(s) == s
  {
    if s != [] {
      RemoveDotsFree(s[1..]);
      assert s == [s[0]] + s[1..];
    }
  }

  /** A PNG photo of exactly 5 MiB is accepted; one byte more is refused. */
  lemma SizeLimitIsInclusive(stem: string, contentType: string)
    requires ContainsText(ToLower(contentType), ImageMarker)
    ensures CheckFile(FormFile(stem + ".png", MaxFileLength, contentType)) == None
    ensures CheckFile(FormFile(stem + ".png", MaxFileLength + 1, contentType))
      == Some(ArgumentException(FileTooLarge))
  {
    assert stem + ".png" == stem + "." + "png";
    ExtensionIgnoresCase(stem, "png");
    assert ToLower("png") == "png";
  }

  /* ---------------- Service ---------------- */

  /** Where an uploaded photo is stored: `files/{guid}-{file name}`. */
  function UploadPath(photoId: Guid, fileName: string): string {
    "files/" + FormatGuid(photoId) + "-" + fileName
  }

  /** `x` is the item created from `model` under the id `id`. */
  predicate IsCreatedFrom(x: MenuItem, model: CreateMenuItemViewModel, id: Guid, photoId: Guid) {
    x.id == id && x.name == model.name && x.price == model.price
    && x.description == model.description && x.category == model.category
    && x.isVegan == model.isVegan
    && x.photoPath == (if model.file.None? then "" else UploadPath(photoId, model.file.value.fileName))
  }

  /** Whether `CreateMenuItem` refuses `model`, and with which exception. */
  function CreateError(items: seq<MenuItem>, model: CreateMenuItemViewModel): (r: Option<Error>)
    ensures HasName(items, model.name) ==> r == Some(ArgumentException(DuplicateName))
    ensures !HasName(items, model.name) && model.file.None? ==> r.None?
    ensures !HasName(items, model.name) && model.file.Some? ==> r == CheckFile(model.file.value)
  {
    if FindByName(items, model.name).Some? then Some(ArgumentException(DuplicateName))
    else if model.file.Some? then CheckFile(model.file.value)
    else None
  }

  /** The listing filter chosen from the optional vegan flag and the
      category list: an empty list does not filter. */
  function RequestedFilter(isVegan: Option<bool>, categories: seq<Category>): (f: Filter)
    ensures forall x :: Matches(x, f) <==>
      (isVegan.None? || x.isVegan == isVegan.value) && (categories == [] || x.category in categories)
  {
    if isVegan.Some? && |categories| > 0 then ByVeganAndCategory(isVegan.value, categories)
    else if |categories| > 0 then ByCategory(categories)
    else if isVegan.Some? then ByVegan(isVegan.value)
    else AllItems
  }

  class MenuItemsService {
    const repository: MenuItemRepository

    constructor (repository: MenuItemRepository)
      ensures this.repository == repository
    {
      this.repository := repository;
    }

    /** `CreateMenuItem`: refuse a taken name or a bad photo, otherwise add
        exactly one item. `newId` is the key the database assigns and
        `photoId` the `Guid.NewGuid()` in the photo's file name. */
    method CreateMenuItem(model: CreateMenuItemViewModel, newId: Guid, photoId: Guid) returns (r: Option<Error>)
      requires repository.Valid() && !HasId(repository.items, newId)
      modifies repository
      ensures repository.Valid()
      ensures r == CreateError(old(repository.items), model)
      ensures r.Some? ==> repository.items == old(repository.items)
      ensures r.None? ==>
        && |repository.items| == |old(repository.items)| + 1
        && repository.items[..|old(repository.items)|] == old(repository.items)
        && IsCreatedFrom(repository.items[|old(repository.items)|], model, newId, photoId)
      ensures DistinctNames(old(repository.items)) ==> DistinctNames(repository.items)
    {
      var sameMenuItem := repository.GetItemByName(model.name);
      if sameMenuItem.Some? {
        return Some(ArgumentException(DuplicateName));
      }
      var fileNameWithPath := "";
      if model.file.Some? {
        var file := model.file.value;
        var extension := ToLower(RemoveDots(GetExtension(file.fileName)));
        if extension !in AllowedExtensions {
          return Some(ArgumentException(UnsupportedExtension));
        }
        if file.length > MaxFileLength {
          return Some(ArgumentException(FileTooLarge));
        }
        var contentType := ToLower(file.contentType);
        if !ContainsText(contentType, ImageMarker) {
          return Some(ArgumentException(NotAnImage));
        }
        fileNameWithPath := UploadPath(photoId, file.fileName);
      }
      var newMenuItem := MenuItem(newId, model.name, model.price, model.description,
                                  model.category, model.isVegan, fileNameWithPath);
      ghost var before := repository.items;
      repository.AddItem(newMenuItem);
      forall i | 0 <= i < |before| ensures before[i].id != newId && before[i].name != model.name {}
      return None;
    }

    /** `GetAllMenuItems`: one view model per listed item, in order. A null
        category array makes `category.Any()` throw. */
    method GetAllMenuItems(isVegan: Option<bool>, category: Option<seq<Category>>)
      returns (r: Result<seq<MenuItemViewModel>, Error>)
      ensures category.None? <==> r.Failure?
      ensures r.Failure? ==> r.error == ArgumentNullException
      ensures r.Success? ==>
        var listed := Select(repository.items, RequestedFilter(isVegan, category.value));
        |r.value| == |listed| && forall j | 0 <= j < |listed| :: Copies(r.value[j], listed[j])
    {
      if category.None? {
        return Failure(ArgumentNullException);
      }
      var filter := RequestedFilter(isVegan, category.value);
      var items := repository.GetAllMenuItems(filter);
      var itemVMs := [];
      for i := 0 to |items|
        invariant |itemVMs| == i
        invariant forall j | 0 <= j < i :: Copies(itemVMs[j], items[j])
      {
        itemVMs := itemVMs + [ToViewModel(items[i])];
      }
      return Success(itemVMs);
    }

    /** `DeleteMenuItem`: a malformed id throws, an unknown one gives null,
        a known one is deleted and gives true. */
    method DeleteMenuItem(id: Option<string>) returns (r: Result<Option<bool>, Error>)
      requires repository.Valid()
      modifies repository
      ensures repository.Valid()
      ensures TryParse(id).None? ==>
        r == Failure(ArgumentException(InvalidIdFormat)) && repository.items == old(repository.items)
      ensures TryParse(id).Some? && !HasId(old(repository.items), TryParse(id).value) ==>
        r == Success(None) && repository.items == old(repository.items)
      ensures TryParse(id).Some? && HasId(old(repository.items), TryParse(id).value) ==>
        r == Success(Some(true))
        && repository.items == WithoutId(old(repository.items), TryParse(id).value)
        && |repository.items| == |old(repository.items)| - 1
      ensures DistinctNames(old(repository.items)) ==> DistinctNames(repository.items)
    {
      var guid := TryParse(id);
      if guid.None? {
        return Failure(ArgumentException(InvalidIdFormat));
      }
      var item := repository.GetItemById(guid.value);
      if item.None? {
        return Success(None);
      }
      ghost var before := repository.items;
      WithoutIdKeepsIds(before, guid.value);
      WithoutIdLength(before, guid.value);
      if DistinctNames(before) {
        WithoutIdKeepsNames(before, guid.value);
      }
      repository.DeleteItem(item.value);
      return Success(Some(true));
    }

    /** `GetItemModelById`: null for a malformed or unknown id, otherwise a
        copy of the item. */
    function GetItemModelById(id: Option<string>): (r: Option<MenuItemViewModel>)
      reads repository
      ensures TryParse(id).None? ==> r.None?
      ensures TryParse(id).Some? ==> (r.Some? <==> HasId(repository.items, TryParse(id).value))
      ensures r.Some? ==> exists i | 0 <= i < |repository.items| ::
        repository.items[i].id == TryParse(id).value && Copies(r.value, repository.items[i])
    {
      var guid := TryParse(id);
      if guid.None? then None
      else
        var item := repository.GetItemById(guid.value);
        if item.None? then None else Some(ToViewModel(item.value))
    }

    /** `GetAddToCartModel`: a malformed id throws `ArgumentException`, an
        unknown one `KeyNotFoundException`; otherwise a copy of the item. */
    function GetAddToCartModel(id: Option<string>): (r: Result<AddToCartViewModel, Error>)
      reads repository
      ensures TryParse(id).None? ==> r == Failure(ArgumentException(InvalidIdFormat))
      ensures TryParse(id).Some? && !HasId(repository.items, TryParse(id).value) ==>
        r == Failure(KeyNotFoundException)
      ensures TryParse(id).Some? && HasId(repository.items, TryParse(id).value) ==> r.Success?
      ensures r.Success? ==> exists i | 0 <= i < |repository.items| ::
        repository.items[i].id == TryParse(id).value && Copies(r.value.item, repository.items[i])
    {
      var guid := TryParse(id);
      if guid.None? then Failure(ArgumentException(InvalidIdFormat))
      else
        var item := repository.GetItemById(guid.value);
        if item.None? then Failure(KeyNotFoundException)
        else Success(AddToCartViewModel(ToViewModel(item.value)))
    }

    /** `GetItemNameById`: the name of the item with that id, if any. */
    function GetItemNameById(id: Guid): (r: Option<string>)
      reads repository
      ensures r.None? <==> !HasId(repository.items, id)
      ensures r.Some? ==> exists i | 0 <= i < |repository.items| ::
        repository.items[i].id == id && repository.items[i].name == r.value
    {
      var item := repository.GetItemById(id);
      if item.None? then None else Some(item.value.name)
    }
  }

  /** Looking an item up by the text form of its id, as the pages and the
      tests do, finds that item. */
  lemma LookupByFormattedId(service: MenuItemsService, item: MenuItem)
    requires service.repository.Valid() && item in service.repository.items
    ensures service.GetItemModelById(Some(FormatGuid(item.id))) == Some(ToViewModel(item))
    ensures service.GetAddToCartModel(Some(FormatGuid(item.id))) == Success(AddToCartViewModel(ToViewModel(item)))
  {
    ParseFormat(item.id);
    var found := FindById(service.repository.items, item.id);
    assert found.Some?;
    var i :| 0 <= i < |service.repository.items| && service.repository.items[i] == item;
    var j :| 0 <= j < |service.repository.items| && service.repository.items[j] == found.value;
    assert i == j;
  }
}
