/**
 * The Asset controller: SaveAsset checks an upload request, merges its metadata into a new or a
 * stored asset and hands the asset to the upload or to the metadata save; GetGalleries lists the
 * galleries a user may pick from.
 */
module AssetController {
  import opened Wrappers
  import opened Text
  import opened Decimal
  import opened Api

  /** IFormFile: the uploaded file's name, length in bytes and content type. */
  datatype FormFile = FormFile(fileName: Option<string>, length: int, contentType: Option<string>)

  /** SaveAssetRequest, bound from the form. */
  datatype SaveAssetRequest = SaveAssetRequest(id: Option<int>, galleryID: Option<int>, title: Option<string>,
                                               description: Option<string>, data: Option<FormFile>)

  /** The asset fields SaveAsset reads or writes. */
  datatype AssetData = AssetData(id: int, galleryID: int, title: Option<string>, description: Option<string>,
                                 fileName: Option<string>, contentType: Option<string>, extension: Option<string>,
                                 remoteLocation: Option<string>, remoteLocationThumb: Option<string>)

  /** A new Asset(): no ID, no gallery and no texts. */
  const NewAssetData := AssetData(0, 0, None, None, None, None, None, None, None)

  datatype SaveAssetResponse = SaveAssetResponse(description: Option<string>, title: Option<string>, galleryID: int,
                                                 id: int, remoteLocation: Option<string>, remoteLocationThumb: Option<string>)

  /** Which persistence call SaveAsset makes: the blob upload with the asset, or the metadata save alone. */
  datatype Persistence = NotSaved | Upserted(fileName: string, contentType: Option<string>) | MetadataSaved

  /** int?.GetValueOrDefault(0) */
  function ValueOrZero(v: Option<int>): int {
    if v.Some? then v.value else 0
  }

  /** request.Data?.FileName */
  function FileNameOf(r: SaveAssetRequest): Option<string> {
    if r.data.Some? then r.data.value.fileName else None
  }

  // ---------------------------------------------------------------------------------------------
  // The BadRequest chain

  /** A file name is given but has no dot. */
  predicate NoExtension(r: SaveAssetRequest)
    ensures NoExtension(r) <==>
              (r.data.Some? && r.data.value.fileName.Some?
               && forall i :: 0 <= i < |r.data.value.fileName.value| ==> r.data.value.fileName.value[i] != '.')
  {
    FileNameOf(r).Some? && '.' !in FileNameOf(r).value
  }

  /** The request is for a new asset: no ID, or ID 0. */
  predicate IsNew(r: SaveAssetRequest)
    ensures IsNew(r) <==> r.id.None? || r.id.value == 0
  {
    ValueOrZero(r.id) == 0
  }

  /** A new asset without usable data: an empty file, or no (or a blank) file name. */
  predicate MissingData(r: SaveAssetRequest)
    ensures !MissingData(r) <==>
              (r.data.Some? && r.data.value.length != 0 && r.data.value.fileName.Some?
               && !AllWhiteSpace(r.data.value.fileName.value))
  {
    (r.data.Some? && r.data.value.length == 0) || IsNullOrWhiteSpace(FileNameOf(r))
  }

  /** A new asset without a gallery: no gallery ID, or gallery ID 0. */
  predicate MissingGallery(r: SaveAssetRequest)
    ensures MissingGallery(r) <==> r.galleryID.None? || r.galleryID.value == 0
  {
    ValueOrZero(r.galleryID) == 0
  }

  /** The conditions under which SaveAsset answers BadRequest, in the order it tests them. */
  predicate Rejected(request: Option<SaveAssetRequest>): (b: bool)
    ensures request.None? ==> b
    ensures !b ==> FileNameOf(request.value).Some? ==> '.' in FileNameOf(request.value).value
  {
    || request.None?
    || NoExtension(request.value)
    || (IsNew(request.value) && (MissingData(request.value) || MissingGallery(request.value)))
  }

  /**
   * A new asset that passes the checks comes with a file of non-zero length whose name is not blank
   * and has a dot, and with a gallery ID other than zero.
   */
  lemma AcceptedNewAsset(r: SaveAssetRequest)
    requires !Rejected(Some(r)) && IsNew(r)
    ensures r.data.Some? && r.data.value.length != 0
    ensures r.data.value.fileName.Some? && !AllWhiteSpace(r.data.value.fileName.value) && '.' in r.data.value.fileName.value
    ensures r.galleryID.Some? && r.galleryID.value != 0
  {
  }

  /** A missing file name never trips the dot check: on an existing asset such a request gets through. */
  lemma MissingFileNamePasses(r: SaveAssetRequest)
    requires r.data.Some? && r.data.value.fileName.None? && ValueOrZero(r.id) > 0
    ensures !Rejected(Some(r))
  {
  }

  // ---------------------------------------------------------------------------------------------
  // The metadata merge

  /** The extension: the file name from its last dot on, the dot included. */
  function Extension(fileName: string): (e: string)
    requires '.' in fileName
    ensures 1 <= |e| <= |fileName| && e[0] == '.' && e == fileName[|fileName| - |e|..]
  {
    fileName[LastIndexOf(fileName, '.')..]
  }

  /** The extension is the shortest suffix of the file name that starts with a dot. */
  lemma ExtensionIsLastDotSuffix(fileName: string)
    requires '.' in fileName
    ensures var e := Extension(fileName);
      && |e| >= 1 && e[0] == '.' && '.' !in e[1..]
      && fileName == fileName[..|fileName| - |e|] + e
  {
    var i := LastIndexOf(fileName, '.');
    var e := Extension(fileName);
    forall j | 0 <= j < |e| - 1 ensures e[1..][j] != '.' {
      assert e[1..][j] == fileName[i + 1 + j];
    }
    assert fileName == fileName[..i] + e;
  }

  /** The metadata SaveAsset merges into the asset: gallery, description and title. */
  function MergeMetadata(a: AssetData, r: SaveAssetRequest): (m: AssetData)
    ensures m.description == r.description
    ensures m.(galleryID := a.galleryID, description := a.description, title := a.title) == a
  {
    var withGallery := if ValueOrZero(r.galleryID) > 0 then a.(galleryID := r.galleryID.value) else a;
    var withTitle := withGallery.(description := r.description,
                                  title := if !IsNullOrWhiteSpace(r.title) then r.title else withGallery.title);
    if IsNullOrWhiteSpace(withTitle.title) then withTitle.(title := withTitle.fileName) else withTitle
  }

  /** What a new upload adds: its content type and the extension of its file name. */
  function MergeUpload(a: AssetData, file: FormFile): (m: AssetData)
    requires file.fileName.Some? && '.' in file.fileName.value
    ensures m.(contentType := a.contentType, extension := a.extension) == a
    ensures m.contentType == file.contentType
    ensures var f := file.fileName.value;
            m.extension.Some? && 1 <= |m.extension.value| <= |f| && m.extension.value[0] == '.'
            && m.extension.value == f[|f| - |m.extension.value|..]
  {
    a.(contentType := file.contentType, extension := Some(Extension(file.fileName.value)))
  }

  /**
   * The merge rules: the gallery changes only to a positive request gallery ID, the description is
   * always the request's, a non-blank request title wins, a blank resulting title falls back to the
   * file name, and nothing else changes.
   */
  lemma MergeMetadataRules(a: AssetData, r: SaveAssetRequest)
    ensures var m := MergeMetadata(a, r);
      && (m.galleryID != a.galleryID ==> r.galleryID.Some? && r.galleryID.value > 0 && m.galleryID == r.galleryID.value)
      && (r.galleryID.Some? && r.galleryID.value > 0 ==> m.galleryID == r.galleryID.value)
      && m.description == r.description
      && (!IsNullOrWhiteSpace(r.title) ==> m.title == r.title)
      && (IsNullOrWhiteSpace(r.title) && !IsNullOrWhiteSpace(a.title) ==> m.title == a.title)
      && (IsNullOrWhiteSpace(r.title) && IsNullOrWhiteSpace(a.title) ==> m.title == a.fileName)
      && m.(galleryID := a.galleryID, description := a.description, title := a.title) == a
  {
  }

  /** The resulting title is never blank unless the asset's file name is blank (or missing) too. */
  lemma MergedTitleNotBlank(a: AssetData, r: SaveAssetRequest)
    ensures IsNullOrWhiteSpace(MergeMetadata(a, r).title) ==> MergeMetadata(a, r).title == a.fileName
  {
  }

  /** Saving the same request twice leaves the metadata as saving it once. */
  lemma MergeMetadataIdempotent(a: AssetData, r: SaveAssetRequest)
    ensures MergeMetadata(MergeMetadata(a, r), r) == MergeMetadata(a, r)
  {
  }

  /**
   * A new asset with a negative gallery ID passes the checks, yet keeps the gallery of a fresh
   * asset: only a positive ID is copied over.
   */
  lemma NegativeGalleryIgnored(r: SaveAssetRequest)
    requires IsNew(r) && r.galleryID.Some? && r.galleryID.value < 0
    requires r.data.Some? && r.data.value.length != 0 && r.data.value.fileName.Some?
    requires !AllWhiteSpace(r.data.value.fileName.value) && '.' in r.data.value.fileName.value
    ensures !Rejected(Some(r))
    ensures MergeMetadata(NewAssetData, r).galleryID == 0
  {
  }

  /** A new asset saved without a title gets no title: a fresh asset has no file name to fall back to. */
  lemma NewAssetWithoutTitle(r: SaveAssetRequest)
    requires IsNullOrWhiteSpace(r.title)
    ensures MergeMetadata(NewAssetData, r).title.None?
  {
  }

  /** The response reports the asset as saved. */
  function ResponseOf(a: AssetData): (s: SaveAssetResponse)
    ensures s.id == a.id && s.galleryID == a.galleryID && s.title == a.title && s.description == a.description
  {
    SaveAssetResponse(a.description, a.title, a.galleryID, a.id, a.remoteLocation, a.remoteLocationThumb)
  }

  // ---------------------------------------------------------------------------------------------
  // SaveAsset

  class Asset {
    var id: int
    var galleryID: int
    var title: Option<string>
    var description: Option<string>
    var fileName: Option<string>
    var contentType: Option<string>
    var extension: Option<string>
    var remoteLocation: Option<string>
    var remoteLocationThumb: Option<string>

    function Data(): AssetData
      reads this
    {
      AssetData(id, galleryID, title, description, fileName, contentType, extension, remoteLocation, remoteLocationThumb)
    }

    /** new Asset() */
    constructor ()
      ensures Data() == NewAssetData
    {
      id, galleryID := 0, 0;
      title, description, fileName, contentType, extension := None, None, None, None, None;
      remoteLocation, remoteLocationThumb := None, None;
    }

    /** The metadata section of SaveAsset: gallery, description and title, field by field. */
    method ApplyMetadata(r: SaveAssetRequest)
      modifies this
      ensures Data() == MergeMetadata(old(Data()), r)
    {
      if ValueOrZero(r.galleryID) > 0 {
        galleryID := r.galleryID.value;
      }
      description := r.description;
      if !IsNullOrWhiteSpace(r.title) {
        title := r.title;
      }
      if IsNullOrWhiteSpace(title) {
        title := fileName;
      }
    }

    /**
     * The merge section of SaveAsset: the metadata, then the upload's content type and extension;
     * ok is false when an upload without a file name throws, after the content type was set.
     */
    method ApplyRequest(r: SaveAssetRequest) returns (ok: bool, saved: Persistence)
      requires !NoExtension(r)
      modifies this
      ensures ok <==> !(r.data.Some? && r.data.value.fileName.None?)
      ensures !ok ==> saved == NotSaved && Data() == MergeMetadata(old(Data()), r).(contentType := r.data.value.contentType)
      ensures ok ==> Data() == (if r.data.Some? then MergeUpload(MergeMetadata(old(Data()), r), r.data.value)
                                else MergeMetadata(old(Data()), r))
      ensures ok ==> saved == (if r.data.Some? then Upserted(r.data.value.fileName.value, r.data.value.contentType)
                               else MetadataSaved)
    {
      ApplyMetadata(r);
      if r.data.Some? {
        contentType := r.data.value.contentType;
        if r.data.value.fileName.None? {
          return false, NotSaved;
        }
        extension := Some(Extension(r.data.value.fileName.value));
        saved := Upserted(r.data.value.fileName.value, r.data.value.contentType);
      } else {
        saved := MetadataSaved;
      }
      ok := true;
    }
  }

  /**
   * SaveAsset(request). `stored` is what Asset.SelectOneAsync returns for the request's ID (null when
   * there is no such asset); it is only looked up for a positive ID. The persistence calls are
   * reported, not performed. Faulted stands for the NullReferenceException of a missing stored asset
   * or of an upload without a file name.
   */
  method SaveAsset(request: Option<SaveAssetRequest>, stored: Asset?)
    returns (result: ActionResult<SaveAssetResponse>, asset: Asset?, saved: Persistence)
    modifies stored
    ensures result.BadRequest? <==> Rejected(request)
    ensures result.BadRequest? ==> asset == null && saved == NotSaved
    ensures !Rejected(request) ==> var r := request.value;
      && (result.Faulted? <==> (ValueOrZero(r.id) > 0 && stored == null) || (r.data.Some? && r.data.value.fileName.None?))
      && (result.Faulted? ==> saved == NotSaved)
      && (result.OkObject? ==>
            var base := if ValueOrZero(r.id) > 0 then old(stored.Data()) else NewAssetData;
            && asset != null && (if ValueOrZero(r.id) > 0 then asset == stored else fresh(asset))
            && asset.Data() == (if r.data.Some? then MergeUpload(MergeMetadata(base, r), r.data.value)
                                else MergeMetadata(base, r))
            && saved == (if r.data.Some? then Upserted(r.data.value.fileName.value, r.data.value.contentType)
                         else MetadataSaved)
            && result.value == ResponseOf(asset.Data()))
    ensures !Rejected(request) && (ValueOrZero(request.value.id) > 0 ==> stored != null)
            && request.value.data.Some? && request.value.data.value.fileName.None? ==>
              var r := request.value;
              var base := if ValueOrZero(r.id) > 0 then old(stored.Data()) else NewAssetData;
              && asset != null && (if ValueOrZero(r.id) > 0 then asset == stored else fresh(asset))
              && asset.Data() == MergeMetadata(base, r).(contentType := r.data.value.contentType)
    ensures stored != null && (Rejected(request) || ValueOrZero(request.value.id) <= 0) ==> stored.Data() == old(stored.Data())
  {
    if request.None? {
      return BadRequest, null, NotSaved;
    }
    var r := request.value;
    if FileNameOf(r).Some? && '.' !in FileNameOf(r).value {
      return BadRequest, null, NotSaved;
    }
    if ValueOrZero(r.id) == 0 {
      if (r.data.Some? && r.data.value.length == 0) || IsNullOrWhiteSpace(FileNameOf(r)) {
        return BadRequest, null, NotSaved;
      }
      if ValueOrZero(r.galleryID) == 0 {
        return BadRequest, null, NotSaved;
      }
    }
    asset := new Asset();
    if ValueOrZero(r.id) > 0 {
      asset := stored;
      if asset == null {
        return Faulted, null, NotSaved;
      }
    }
    var ok;
    ok, saved := asset.ApplyRequest(r);
    if !ok {
      return Faulted, asset, NotSaved;
    }
    result := OkObject(ResponseOf(asset.Data()));
  }

  // ---------------------------------------------------------------------------------------------
  // GetGalleries

  datatype Gallery = Gallery(id: int, completePath: Option<string>)

  datatype ListItemCollectionOption = ListItemCollectionOption(text: Option<string>, value: string, isEnabled: bool)

  /** The option for one gallery: its complete path as text, its ID as value, enabled. */
  function GalleryOption(g: Gallery): (o: ListItemCollectionOption)
    ensures o.text == g.completePath && o.isEnabled
  {
    ListItemCollectionOption(g.completePath, IntToString(g.id), true)
  }

  /** An option's value reads back as its gallery's ID, so distinct galleries give distinct values. */
  lemma GalleryOptionValue(g: Gallery, h: Gallery)
    requires Int64Min <= g.id <= Int64Max
    ensures ParseLong(GalleryOption(g).value) == Ok(g.id)
    ensures GalleryOption(g).value == GalleryOption(h).value <==> g.id == h.id
  {
    ParseIntToString(g.id);
    if GalleryOption(g).value == GalleryOption(h).value {
      IntToStringInjective(g.id, h.id);
    }
  }

  /**
   * GetGalleries(): one option per gallery the user may access (given here, in the order the query
   * returns them), built in a loop.
   */
  method GetGalleries(galleries: seq<Gallery>) returns (result: ActionResult<seq<ListItemCollectionOption>>)
    ensures result.OkObject? && |result.value| == |galleries|
    ensures forall i :: 0 <= i < |galleries| ==> result.value[i] == GalleryOption(galleries[i])
  {
    var temp: seq<ListItemCollectionOption> := [];
    for i := 0 to |galleries|
      invariant |temp| == i
      invariant forall k :: 0 <= k < i ==> temp[k] == GalleryOption(galleries[k])
    {
      var gallery := galleries[i];
      temp := temp + [ListItemCollectionOption(gallery.completePath, IntToString(gallery.id), true)];
    }
    return OkObject(temp);
  }
}
