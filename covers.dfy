/**
  The cover manager (core/cover_manager.py): the file name a game's custom
  cover is stored under, the custom cover registered for a game, the cover
  found in a game's folder, the best cover overall, and the registration of
  a new custom cover in the settings.

  The settings document is the map `_load_settings` returns; the image
  files and directories are a `Disk`. Application directories are derived
  from the installation's base directory, a parameter.
*/
module Covers {
  import opened Wrappers
  import opened Text
  import opened Paths

  // ---------------------------------------------------------------------
  // `_safe_name`

  /** The characters a cover file name may not contain. */
  const InvalidChars: string := "<>:\"/\\|?*\n\r\t"

  /** The characters of `s` outside `InvalidChars`, in order. */
  function KeepValid(s: string): (r: string)
    ensures forall c :: c in r <==> c in s && c !in InvalidChars
  {
    if s == [] then [] else (if s[0] in InvalidChars then [] else [s[0]]) + KeepValid(s[1..])
  }

  /** Filtering works piece by piece: it keeps the order of what it keeps. */
  lemma {:induction false} KeepValidConcat(a: string, b: string)
    ensures KeepValid(a + b) == KeepValid(a) + KeepValid(b)
  {
    if a != [] {
      assert (a + b)[1..] == a[1..] + b;
      KeepValidConcat(a[1..], b);
    } else {
      assert a + b == b;
    }
  }

  /** A single character is kept exactly when it is valid. */
  lemma KeepValidChar(c: char)
    ensures KeepValid([c]) == if c in InvalidChars then [] else [c]
  {
    assert [c][1..] == [];
  }

  lemma {:induction false} KeepValidNoop(s: string)
    requires forall c :: c in s ==> c !in InvalidChars
    ensures KeepValid(s) == s
  {
    if s != [] {
      assert s[0] in s;
      assert forall c :: c in s[1..] ==> c in s;
      KeepValidNoop(s[1..]);
      assert s == [s[0]] + s[1..];
    }
  }

  /** `s.replace(" ", "_")`. */
  function ReplaceSpaces(s: string): (r: string)
    ensures |r| == |s|
    ensures forall i :: 0 <= i < |s| ==> r[i] == if s[i] == ' ' then '_' else s[i]
  {
    if s == [] then [] else [if s[0] == ' ' then '_' else s[0]] + ReplaceSpaces(s[1..])
  }

  /** The name to store a game's cover under: the name without invalid
      characters, stripped, with spaces turned into underscores, or "game"
      when nothing is left. */
  function SafeName(name: string): (r: string)
  {
    var out := ReplaceSpaces(Strip(KeepValid(name)));
    if out == [] then "game" else out
  }

  lemma StrippedValid(name: string)
    ensures forall c :: c in Strip(KeepValid(name)) ==> c !in InvalidChars
  {
    forall c | c in Strip(KeepValid(name)) ensures c !in InvalidChars {
      StripKeepsChars(KeepValid(name), c);
    }
  }

  /** The characters of a safe name. */
  predicate SafeChars(r: string)
  {
    forall c :: c in r ==> c !in InvalidChars && c != ' '
  }

  /** Neither end is whitespace. */
  predicate Trimmed(r: string)
  {
    r != [] && !IsSpace(r[0]) && !IsSpace(r[|r| - 1])
  }

  lemma ReplacedChars(t: string)
    requires forall c :: c in t ==> c !in InvalidChars
    ensures SafeChars(ReplaceSpaces(t))
  {
    forall c | c in ReplaceSpaces(t) ensures c !in InvalidChars && c != ' ' {
      var i :| 0 <= i < |t| && ReplaceSpaces(t)[i] == c;
      if t[i] == ' ' {
        assert c == '_';
      } else {
        assert c in t;
      }
    }
  }

  lemma ReplacedEnds(t: string)
    requires Trimmed(t)
    ensures Trimmed(ReplaceSpaces(t))
  {
    assert IsSpace(' ');
  }

  lemma GameIsSafe()
    ensures SafeChars("game") && Trimmed("game")
  {
    assert !IsSpace('g') && !IsSpace('e');
    assert forall c :: c in "game" ==> c == 'g' || c == 'a' || c == 'm' || c == 'e';
  }

  /** A safe name holds no invalid character and no space, and neither of
      its ends is whitespace. */
  lemma SafeNameIsSafe(name: string)
    ensures SafeChars(SafeName(name)) && Trimmed(SafeName(name))
  {
    var t := Strip(KeepValid(name));
    if t == [] {
      GameIsSafe();
    } else {
      StrippedValid(name);
      ReplacedChars(t);
      ReplacedEnds(t);
    }
  }

  /** Nothing left after filtering and stripping gives "game". */
  lemma SafeNameOfBlank(name: string)
    requires Strip(KeepValid(name)) == []
    ensures SafeName(name) == "game"
  {
  }

  /** "game" comes only from a name that filters and strips to nothing or
      to "game" itself. */
  lemma SafeNameGameOnlyFrom(name: string)
    requires SafeName(name) == "game"
    ensures Strip(KeepValid(name)) == [] || Strip(KeepValid(name)) == "game"
  {
    var t := Strip(KeepValid(name));
    if t != [] {
      var out := ReplaceSpaces(t);
      assert |t| == 4;
      forall i | 0 <= i < 4 ensures t[i] == "game"[i] {
        assert out[i] == "game"[i];
      }
    }
  }

  lemma ReplaceSpacesNoop(r: string)
    requires ' ' !in r
    ensures ReplaceSpaces(r) == r
  {
    forall i | 0 <= i < |r| ensures ReplaceSpaces(r)[i] == r[i] {
      assert r[i] in r;
    }
  }

  /** A safe name is its own safe name. */
  lemma SafeNameFixes(r: string)
    requires SafeChars(r) && Trimmed(r)
    ensures SafeName(r) == r
  {
    KeepValidNoop(r);
    StripNoop(r);
    ReplaceSpacesNoop(r);
  }

  /** Applying `_safe_name` to its own output changes nothing. */
  lemma SafeNameIdempotent(name: string)
    ensures SafeName(SafeName(name)) == SafeName(name)
  {
    SafeNameIsSafe(name);
    SafeNameFixes(SafeName(name));
  }

  // ---------------------------------------------------------------------
  // Locations and settings

  /** `ASSETS_DIR`, `COVERS_DIR` and `DEFAULT_COVER` below the base directory. */
  function AssetsDir(base: Path): Path { Join(base, "assets") }

  function CoversDir(base: Path): Path { Join(AssetsDir(base), "covers") }

  function DefaultCover(base: Path): Path { Join(AssetsDir(base), "default_cover.png") }

  /** `COVERS_DIR/<safe_name>.png`. */
  function CoverFile(base: Path, gameName: string): (r: Path)
    ensures r != [] && EndsWith(r, ".png")
  {
    Join(CoversDir(base), SafeName(gameName) + ".png")
  }

  /** A JSON value of the settings document: a string, an object, or
      anything else (numbers, booleans, null, arrays). */
  datatype Json = JString(text: string) | JObject(fields: map<string, Json>) | JOther

  /** The failures the cover functions let escape. */
  datatype CoverError =
    | NotAnObject     // "custom_covers" holds something other than an object
    | SourceMissing   // the image to register is not a file
    | ListingFailed   // the game folder cannot be listed

  const CustomCoversKey := "custom_covers"

  /** `s.get("custom_covers", {})` as an object, or the error using it
      as one raises. */
  function CustomCovers(settings: map<string, Json>): Result<map<string, Json>, CoverError>
  {
    var custom := if CustomCoversKey in settings then settings[CustomCoversKey] else JObject(map[]);
    if custom.JObject? then Ok(custom.fields) else Err(NotAnObject)
  }

  /** The registered path, when it is a usable one: a nonempty string that
      names an existing file. */
  function Registered(custom: map<string, Json>, files: set<Path>, gameName: string): Option<Path>
  {
    if gameName in custom && custom[gameName].JString? && custom[gameName].text != [] && custom[gameName].text in files
    then Some(custom[gameName].text) else None
  }

  /** `get_custom_cover_path(game_name)`. */
  function CustomCoverPath(base: Path, settings: map<string, Json>, files: set<Path>, gameName: string): (r: Result<Option<Path>, CoverError>)
    ensures r.Ok? && r.value.Some? ==> r.value.value in files && r.value.value != []
    ensures r.Err? <==> CustomCovers(settings).Err?
  {
    match CustomCovers(settings)
    case Err(e) => Err(e)
    case Ok(custom) =>
      var reg := Registered(custom, files, gameName);
      if reg.Some? then Ok(reg)
      else if CoverFile(base, gameName) in files then Ok(Some(CoverFile(base, gameName)))
      else Ok(None)
  }

  lemma RegisteredCoverWins(base: Path, settings: map<string, Json>, files: set<Path>, gameName: string, p: Path)
    requires CustomCovers(settings).Ok? && gameName in CustomCovers(settings).value
    requires CustomCovers(settings).value[gameName] == JString(p) && p != [] && p in files
    ensures CustomCoverPath(base, settings, files, gameName) == Ok(Some(p))
  {
  }

  lemma StoredCoverFallback(base: Path, settings: map<string, Json>, files: set<Path>, gameName: string)
    requires CustomCovers(settings).Ok? && Registered(CustomCovers(settings).value, files, gameName).None?
    ensures CustomCoverPath(base, settings, files, gameName)
      == Ok(if CoverFile(base, gameName) in files then Some(CoverFile(base, gameName)) else None)
  {
  }

  // ---------------------------------------------------------------------
  // `find_folder_cover`

  /** The file names tried first, in order. */
  const CoverNames: seq<string> := [
    "cover.jpg", "cover.png", "portada.jpg", "portada.png",
    "folder.jpg", "folder.png", "boxart.jpg", "boxart.png"
  ]

  /** Index of the first of `names` that is a file in `folder` (|names| if none). */
  function FirstExisting(folder: Path, names: seq<string>, files: set<Path>): (r: nat)
    ensures r <= |names|
    ensures r < |names| ==> Join(folder, names[r]) in files
    ensures forall j :: 0 <= j < r ==> Join(folder, names[j]) !in files
  {
    if names == [] then 0
    else if Join(folder, names[0]) in files then 0
    else 1 + FirstExisting(folder, names[1..], files)
  }

  /** `f.lower().endswith((".jpg", ".png"))`. */
  predicate IsImageName(f: string)
  {
    EndsWith(Lower(f), ".jpg") || EndsWith(Lower(f), ".png")
  }

  /** Index of the first image name of a listing (|listing| if none). */
  function FirstImage(listing: seq<string>): (r: nat)
    ensures r <= |listing|
    ensures r < |listing| ==> IsImageName(listing[r])
    ensures forall j :: 0 <= j < r ==> !IsImageName(listing[j])
  {
    if listing == [] then 0
    else if IsImageName(listing[0]) then 0
    else 1 + FirstImage(listing[1..])
  }

  /** `find_folder_cover(folder)`; a folder whose listing fails raises. */
  function FolderCover(disk: Disk, folder: Path): (r: Result<Option<Path>, CoverError>)
    ensures folder !in disk.dirs ==> r == Ok(None)
    ensures r.Err? ==> folder in disk.dirs && folder !in disk.listings
    ensures r.Ok? && r.value.Some? ==> StartsWith(r.value.value, folder) && r.value.value != []
  {
    if folder !in disk.dirs then Ok(None)
    else
      var c := FirstExisting(folder, CoverNames, disk.files);
      if c < |CoverNames| then Ok(Some(Join(folder, CoverNames[c])))
      else if folder !in disk.listings then Err(ListingFailed)
      else
        var listing := disk.listings[folder];
        var k := FirstImage(listing);
        if k < |listing| then Ok(Some(Join(folder, listing[k]))) else Ok(None)
  }

  /** The first loop of `find_folder_cover`: the index of the first name
      that exists, returning as soon as one does. */
  method FindExisting(folder: Path, names: seq<string>, files: set<Path>) returns (i: nat)
    ensures i == FirstExisting(folder, names, files)
  {
    i := 0;
    while i < |names|
      invariant i <= |names|
      invariant forall j :: 0 <= j < i ==> Join(folder, names[j]) !in files
    {
      if Join(folder, names[i]) in files {
        return;
      }
      i := i + 1;
    }
  }

  /** The second loop of `find_folder_cover`: the index of the first image
      name in the listing, returning as soon as one is seen. */
  method FindImage(listing: seq<string>) returns (k: nat)
    ensures k == FirstImage(listing)
  {
    k := 0;
    while k < |listing|
      invariant k <= |listing|
      invariant forall j :: 0 <= j < k ==> !IsImageName(listing[j])
    {
      if IsImageName(listing[k]) {
        return;
      }
      k := k + 1;
    }
  }

  /** `find_folder_cover(folder)`, returning at the first hit. */
  method FindFolderCover(disk: Disk, folder: Path) returns (r: Result<Option<Path>, CoverError>)
    ensures r == FolderCover(disk, folder)
  {
    if folder !in disk.dirs {
      return Ok(None);
    }
    var i := FindExisting(folder, CoverNames, disk.files);
    if i < |CoverNames| {
      return Ok(Some(Join(folder, CoverNames[i])));
    }
    if folder !in disk.listings {
      return Err(ListingFailed);
    }
    var listing := disk.listings[folder];
    var k := FindImage(listing);
    if k < |listing| {
      return Ok(Some(Join(folder, listing[k])));
    }
    return Ok(None);
  }

  /** In a directory, the first existing name of the fixed list wins. */
  lemma FixedNameOrder(disk: Disk, folder: Path, i: nat)
    requires folder in disk.dirs && i < |CoverNames| && Join(folder, CoverNames[i]) in disk.files
    requires forall j :: 0 <= j < i ==> Join(folder, CoverNames[j]) !in disk.files
    ensures FolderCover(disk, folder) == Ok(Some(Join(folder, CoverNames[i])))
  {
    assert FirstExisting(folder, CoverNames, disk.files) == i;
  }

  /** Without any of the fixed names, the first image of the listing wins. */
  lemma ListedImageFallback(disk: Disk, folder: Path, k: nat)
    requires folder in disk.dirs && folder in disk.listings
    requires forall j :: 0 <= j < |CoverNames| ==> Join(folder, CoverNames[j]) !in disk.files
    requires k < |disk.listings[folder]| && IsImageName(disk.listings[folder][k])
    requires forall j :: 0 <= j < k ==> !IsImageName(disk.listings[folder][j])
    ensures FolderCover(disk, folder) == Ok(Some(Join(folder, disk.listings[folder][k])))
  {
    assert FirstExisting(folder, CoverNames, disk.files) == |CoverNames|;
    assert FirstImage(disk.listings[folder]) == k;
  }

  /** A directory with none of the fixed names and no listed image has no
      cover. */
  lemma NoFolderCover(disk: Disk, folder: Path)
    requires folder in disk.dirs && folder in disk.listings
    requires forall j :: 0 <= j < |CoverNames| ==> Join(folder, CoverNames[j]) !in disk.files
    requires forall j :: 0 <= j < |disk.listings[folder]| ==> !IsImageName(disk.listings[folder][j])
    ensures FolderCover(disk, folder) == Ok(None)
  {
    assert FirstExisting(folder, CoverNames, disk.files) == |CoverNames|;
    assert FirstImage(disk.listings[folder]) == |disk.listings[folder]|;
  }

  // ---------------------------------------------------------------------
  // `get_best_cover`

  /** `get_best_cover(game_name, exe_folder)`: the custom cover, else the
      folder's cover, else the default cover. */
  function BestCover(base: Path, settings: map<string, Json>, disk: Disk, gameName: string, exeFolder: Path): (r: Result<Path, CoverError>)
    ensures r.Ok? ==> r.value != []
  {
    match CustomCoverPath(base, settings, disk.files, gameName)
    case Err(e) => Err(e)
    case Ok(custom) =>
      if custom.Some? then Ok(custom.value)
      else
        match FolderCover(disk, exeFolder)
        case Err(e) => Err(e)
        case Ok(found) => if found.Some? then Ok(found.value) else Ok(DefaultCover(base))
  }

  lemma CustomCoverFirst(base: Path, settings: map<string, Json>, disk: Disk, gameName: string, exeFolder: Path, p: Path)
    requires CustomCoverPath(base, settings, disk.files, gameName) == Ok(Some(p))
    ensures BestCover(base, settings, disk, gameName, exeFolder) == Ok(p)
  {
  }

  lemma FolderCoverSecond(base: Path, settings: map<string, Json>, disk: Disk, gameName: string, exeFolder: Path, p: Path)
    requires CustomCoverPath(base, settings, disk.files, gameName) == Ok(None)
    requires FolderCover(disk, exeFolder) == Ok(Some(p))
    ensures BestCover(base, settings, disk, gameName, exeFolder) == Ok(p)
  {
  }

  lemma DefaultCoverLast(base: Path, settings: map<string, Json>, disk: Disk, gameName: string, exeFolder: Path)
    requires CustomCoverPath(base, settings, disk.files, gameName) == Ok(None)
    requires FolderCover(disk, exeFolder) == Ok(None)
    ensures BestCover(base, settings, disk, gameName, exeFolder) == Ok(DefaultCover(base))
  {
  }

  // ---------------------------------------------------------------------
  // The settings update of `set_custom_cover`

  /** The settings after `s["custom_covers"][game_name] = dest`, creating the
      object when the key is absent; assigning into anything other than an
      object raises. */
  function WithCustomCover(settings: map<string, Json>, gameName: string, dest: Path): Result<map<string, Json>, CoverError>
  {
    match CustomCovers(settings)
    case Err(e) => Err(e)
    case Ok(custom) => Ok(settings[CustomCoversKey := JObject(custom[gameName := JString(dest)])])
  }

  /** The update fails exactly when "custom_covers" holds a non-object, and
      otherwise leaves every other settings entry, and every other game's
      registration, as it was. */
  lemma WithCustomCoverScope(settings: map<string, Json>, gameName: string, dest: Path)
    ensures WithCustomCover(settings, gameName, dest).Err? <==> CustomCovers(settings).Err?
    ensures WithCustomCover(settings, gameName, dest).Ok? ==>
      var s := WithCustomCover(settings, gameName, dest).value;
      CustomCoversKey in s
      && (forall k :: k != CustomCoversKey ==> (k in s <==> k in settings) && (k in s ==> s[k] == settings[k]))
      && CustomCovers(s).Ok?
      && (forall m :: m != gameName ==> (m in CustomCovers(s).value <==> m in CustomCovers(settings).value))
      && (forall m :: m != gameName && m in CustomCovers(s).value ==> CustomCovers(s).value[m] == CustomCovers(settings).value[m])
  {
  }

  /** Once registered and written, the cover is what `get_custom_cover_path`
      finds for the game. */
  lemma RegisteredCoverFound(base: Path, settings: map<string, Json>, files: set<Path>, gameName: string)
    requires WithCustomCover(settings, gameName, CoverFile(base, gameName)).Ok?
    ensures CustomCoverPath(base, WithCustomCover(settings, gameName, CoverFile(base, gameName)).value,
      files + {CoverFile(base, gameName)}, gameName) == Ok(Some(CoverFile(base, gameName)))
  {
    var d := CoverFile(base, gameName);
    var s := WithCustomCover(settings, gameName, d).value;
    assert CustomCovers(s) == Ok(CustomCovers(settings).value[gameName := JString(d)]);
  }

  /** Registering the same cover twice is registering it once. */
  lemma WithCustomCoverIdempotent(settings: map<string, Json>, gameName: string, dest: Path)
    requires WithCustomCover(settings, gameName, dest).Ok?
    ensures WithCustomCover(WithCustomCover(settings, gameName, dest).value, gameName, dest) == WithCustomCover(settings, gameName, dest)
  {
    var s := WithCustomCover(settings, gameName, dest).value;
    var c := CustomCovers(settings).value;
    assert CustomCovers(s) == Ok(c[gameName := JString(dest)]);
    assert c[gameName := JString(dest)][gameName := JString(dest)] == c[gameName := JString(dest)];
    assert s[CustomCoversKey := JObject(c[gameName := JString(dest)])] == s;
  }

  /** The in-place steps of the update: `setdefault` the object, then assign
      the key, which raises when the value is not an object. */
  lemma WithCustomCoverSteps(settings: map<string, Json>, gameName: string, dest: Path)
    ensures var s1 := if CustomCoversKey in settings then settings else settings[CustomCoversKey := JObject(map[])];
      WithCustomCover(settings, gameName, dest)
        == if s1[CustomCoversKey].JObject?
           then Ok(s1[CustomCoversKey := JObject(s1[CustomCoversKey].fields[gameName := JString(dest)])])
           else Err(NotAnObject)
  {
    if CustomCoversKey !in settings {
      var x := JObject(map[][gameName := JString(dest)]);
      assert settings[CustomCoversKey := JObject(map[])][CustomCoversKey := x] == settings[CustomCoversKey := x];
    }
  }

  /** The cover state of an installation: its base directory, the settings
      document, and the files on disk. */
  class CoverStore {
    const base: Path
    var settings: map<string, Json>
    var files: set<Path>

    constructor(base: Path, settings: map<string, Json>, files: set<Path>)
      ensures this.base == base && this.settings == settings && this.files == files
    {
      this.base := base;
      this.settings := settings;
      this.files := files;
    }

    /** `set_custom_cover(game_name, source_image_path)`: the cover is
        written first, then registered; a failing registration leaves the
        written file and the settings as they were. */
    method SetCustomCover(gameName: string, source: Path) returns (r: Result<Path, CoverError>)
      modifies this
      ensures source !in old(files) ==> r == Err(SourceMissing) && settings == old(settings) && files == old(files)
      ensures source in old(files) ==> files == old(files) + {CoverFile(base, gameName)}
      ensures source in old(files) && WithCustomCover(old(settings), gameName, CoverFile(base, gameName)).Ok? ==>
        r == Ok(CoverFile(base, gameName)) && settings == WithCustomCover(old(settings), gameName, CoverFile(base, gameName)).value
      ensures source in old(files) && WithCustomCover(old(settings), gameName, CoverFile(base, gameName)).Err? ==>
        r == Err(NotAnObject) && settings == old(settings)
      ensures r.Ok? ==> CustomCoverPath(base, settings, files, gameName) == Ok(Some(r.value))
    {
      if source !in files {
        return Err(SourceMissing);
      }
      var dest := CoverFile(base, gameName);
      files := files + {dest};
      var s := settings;
      if CustomCoversKey !in s {
        s := s[CustomCoversKey := JObject(map[])];
      }
      var custom := s[CustomCoversKey];
      WithCustomCoverSteps(old(settings), gameName, dest);
      if !custom.JObject? {
        return Err(NotAnObject);
      }
      s := s[CustomCoversKey := JObject(custom.fields[gameName := JString(dest)])];
      RegisteredCoverFound(base, old(settings), old(files), gameName);
      settings := s;
      r := Ok(dest);
    }
  }
}
