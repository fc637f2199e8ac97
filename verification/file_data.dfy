/** The consolidated file record each library post keeps in its
    `_wprl_file_data` meta entry, and the three helpers that read and write
    it: `Utils::get_file_data`, `Utils::update_file_data` and
    `Utils::increment_download_count`.  A post's stored meta is a PHP value
    (`''` when the post has none). */
module FileData {
  import opened PhpValue

  /** The record `get_file_data` falls back to. */
  const DefaultFileData: PhpArray := [
    ("url", Str("")),
    ("size", Int(0)),
    ("type", Str("")),
    ("download_count", Int(0)),
    ("file_id", Int(0))
  ]

  /** Stored meta as PHP keeps it: when it is an array, its keys are distinct. */
  ghost predicate WellFormed(meta: Value) {
    meta.Arr? ==> UniqueKeys(meta.entries)
  }

  /** `get_file_data`: the stored array, or the default record when the
      stored value is empty or not an array. */
  function GetFileData(meta: Value): (r: PhpArray)
    ensures !meta.Arr? || Empty(meta) ==> r == DefaultFileData
    ensures meta.Arr? && !Empty(meta) ==> r == meta.entries
  {
    if Empty(meta) || !meta.Arr? then DefaultFileData else meta.entries
  }

  /** The default record has distinct keys. */
  lemma DefaultFileDataUnique()
    ensures UniqueKeys(DefaultFileData)
  {
    var d := DefaultFileData;
    assert |d[0].0| == 3 && |d[1].0| == 4 && |d[2].0| == 4 && |d[3].0| == 14 && |d[4].0| == 7;
    assert d[1].0 != d[2].0;
  }

  /** The record read from well-formed meta has distinct keys. */
  lemma GetFileDataUnique(meta: Value)
    requires WellFormed(meta)
    ensures UniqueKeys(GetFileData(meta))
  {
    DefaultFileDataUnique();
  }

  /** The download URL of a post's file (`'' ` when there is none). */
  function FileUrl(meta: Value): Value {
    Lookup(GetFileData(meta), "url")
  }

  /** `! empty( $file_data['url'] )`: the post has a file to hand out. */
  predicate HasFile(meta: Value) {
    !Empty(FileUrl(meta))
  }

  /** The counter as the plugin reads it, `intval( $file_data['download_count'] )`. */
  function DownloadCount(meta: Value): int {
    IntVal(Lookup(GetFileData(meta), "download_count"))
  }

  /** `update_file_data`: the new stored value, the current record merged
      key by key with `data` (what `update_post_meta` writes). */
  function UpdateFileData(meta: Value, data: PhpArray): (r: Value)
    ensures r.Arr?
  {
    Arr(Merge(GetFileData(meta), data))
  }

  /** Updating keeps the record well formed and its keys are those of the
      record and of `data`. */
  lemma UpdateFileDataShape(meta: Value, data: PhpArray)
    requires WellFormed(meta)
    ensures WellFormed(UpdateFileData(meta, data))
    ensures forall k :: HasKey(UpdateFileData(meta, data).entries, k)
                    <==> HasKey(GetFileData(meta), k) || HasKey(data, k)
  {
    GetFileDataUnique(meta);
    MergeShape(GetFileData(meta), data);
  }

  /** `update_file_data` overwrites exactly the keys `data` carries. */
  lemma UpdateFileDataLookup(meta: Value, data: PhpArray, k: string)
    requires WellFormed(meta) && UniqueKeys(data)
    ensures Lookup(UpdateFileData(meta, data).entries, k)
         == if HasKey(data, k) then Lookup(data, k) else Lookup(GetFileData(meta), k)
  {
    MergeLookup(GetFileData(meta), data, k);
  }

  /** `increment_download_count`: the stored value after the update. */
  function IncrementDownloadCount(meta: Value): (r: Value)
    ensures r.Arr?
  {
    UpdateFileData(meta, Bumped(GetFileData(meta)))
  }

  /** Incrementing keeps the record well formed. */
  lemma IncrementKeepsWellFormed(meta: Value)
    requires WellFormed(meta)
    ensures WellFormed(IncrementDownloadCount(meta))
  {
    UpdateFileDataShape(meta, Bumped(GetFileData(meta)));
  }

  /** The record with its counter raised, as `increment_download_count`
      hands it to `update_file_data`. */
  function Bumped(fileData: PhpArray): PhpArray {
    Put(fileData, "download_count", Int(IntVal(Lookup(fileData, "download_count")) + 1))
  }

  /** The bumped record keeps distinct keys and adds none but the counter. */
  lemma BumpedKeys(fileData: PhpArray, k: string)
    requires UniqueKeys(fileData)
    ensures UniqueKeys(Bumped(fileData))
    ensures HasKey(Bumped(fileData), k) ==> HasKey(fileData, k) || k == "download_count"
  {
    var count := Int(IntVal(Lookup(fileData, "download_count")) + 1);
    PutUnique(fileData, "download_count", count);
    PutHasKey(fileData, "download_count", count, k);
  }

  /** The incremented meta is read back as the merged record. */
  lemma IncrementedEntries(meta: Value)
    requires WellFormed(meta)
    ensures GetFileData(IncrementDownloadCount(meta))
         == Merge(GetFileData(meta), Bumped(GetFileData(meta)))
  {
    var fileData := GetFileData(meta);
    GetFileDataUnique(meta);
    MergeShape(fileData, Bumped(fileData));
  }

  lemma IncrementedRecord(meta: Value, k: string)
    requires WellFormed(meta)
    ensures Lookup(GetFileData(IncrementDownloadCount(meta)), k)
         == Lookup(Bumped(GetFileData(meta)), k)
  {
    var fileData := GetFileData(meta);
    GetFileDataUnique(meta);
    IncrementedEntries(meta);
    BumpedKeys(fileData, k);
    MergeLookup(fileData, Bumped(fileData), k);
  }

  /** Incrementing raises the counter by exactly one and leaves every other
      field of the record as `get_file_data` returned it. */
  lemma IncrementChangesOnlyCount(meta: Value)
    requires WellFormed(meta)
    ensures DownloadCount(IncrementDownloadCount(meta)) == DownloadCount(meta) + 1
    ensures forall k :: k != "download_count" ==>
      Lookup(GetFileData(IncrementDownloadCount(meta)), k) == Lookup(GetFileData(meta), k)
  {
    IncrementedRecord(meta, "download_count");
    forall k | k != "download_count"
      ensures Lookup(GetFileData(IncrementDownloadCount(meta)), k) == Lookup(GetFileData(meta), k)
    {
      IncrementedRecord(meta, k);
    }
  }

  /** Incrementing keeps the file's URL. */
  lemma IncrementKeepsFile(meta: Value)
    requires WellFormed(meta)
    ensures FileUrl(IncrementDownloadCount(meta)) == FileUrl(meta)
  {
    IncrementedRecord(meta, "url");
    var fileData := GetFileData(meta);
    var count := Int(IntVal(Lookup(fileData, "download_count")) + 1);
    assert Lookup(Put(fileData, "download_count", count), "url") == Lookup(fileData, "url");
  }

  /** Incrementing raises the counter by one. */
  lemma IncrementRaisesCount(meta: Value)
    requires WellFormed(meta)
    ensures DownloadCount(IncrementDownloadCount(meta)) == DownloadCount(meta) + 1
  {
    IncrementedRecord(meta, "download_count");
  }

  /** The record `get_file_data` falls back to holds no file and a zero count. */
  lemma DefaultRecordIsEmpty(meta: Value)
    requires Empty(meta) || !meta.Arr?
    ensures !HasFile(meta) && DownloadCount(meta) == 0
    ensures Lookup(GetFileData(meta), "size") == Int(0)
    ensures Lookup(GetFileData(meta), "type") == Str("")
    ensures Lookup(GetFileData(meta), "file_id") == Int(0)
  {
  }
}
