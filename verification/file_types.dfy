/** The simplified file type a library entry shows (`Utils::get_simplified_file_type`)
    and the per-type tally behind the archive's type filter
    (`Utils::get_cached_file_types`). */
module FileTypes {
  import opened Wrappers
  import opened PhpValue
  import opened Text
  import FileData

  /** PHP's `explode( $sep, $s )` for a one-character separator. */
  function Explode(s: string, sep: char): (parts: seq<string>)
    ensures |parts| == CountOf(s, sep) + 1
    decreases |s|
  {
    if sep !in s then [s]
    else
      var i := IndexOf(s, sep);
      assert s == s[..i] + [sep] + s[i + 1..];
      CountOfAppend(s[..i] + [sep], s[i + 1..], sep);
      CountOfAppend(s[..i], [sep], sep);
      [s[..i]] + Explode(s[i + 1..], sep)
  }

  /** The non-URL branch: the part after the slash of a `type/subtype`
      string, the whole string when there is no slash, and `''` when
      `explode` yields anything but two parts. */
  function MimeExtension(s: string): string {
    if '/' in s then
      var parts := Explode(s, '/');
      if |parts| == 2 then parts[1] else ""
    else s
  }

  /** The extension the classification starts from.  `urlExtension` is what
      `pathinfo` yields when `filter_var` accepts the input as a URL, and
      `None` when it does not. */
  function Extension(input: string, urlExtension: Option<string>): string {
    match urlExtension
    case Some(e) => Lower(e)
    case None => MimeExtension(input)
  }

  /** The extension table of `get_simplified_file_type`. */
  const TypeMap: map<string, string> := map[
    "pdf" := "PDF",
    "doc" := "Document", "docx" := "Document", "txt" := "Document",
    "rtf" := "Document", "odt" := "Document",
    "xls" := "Spreadsheet", "xlsx" := "Spreadsheet", "csv" := "Spreadsheet",
    "ods" := "Spreadsheet",
    "ppt" := "Presentation", "pptx" := "Presentation", "odp" := "Presentation",
    "jpg" := "Image", "jpeg" := "Image", "png" := "Image", "gif" := "Image",
    "bmp" := "Image", "svg" := "Image", "webp" := "Image",
    "mp4" := "Video", "avi" := "Video", "mov" := "Video", "wmv" := "Video",
    "flv" := "Video", "webm" := "Video", "mkv" := "Video",
    "mp3" := "Audio", "wav" := "Audio", "flac" := "Audio", "aac" := "Audio",
    "ogg" := "Audio",
    "zip" := "Archive", "rar" := "Archive", "7z" := "Archive", "tar" := "Archive",
    "gz" := "Archive"
  ]

  /** The label for anything the table does not know. */
  const Fallback := "File"

  /** The nine labels a file can get. */
  const Labels: set<string> := {
    "PDF", "Document", "Spreadsheet", "Presentation", "Image", "Video",
    "Audio", "Archive", Fallback
  }

  /** Table lookup on the lower-cased extension. */
  function Classify(ext: string): string {
    var key := Lower(ext);
    if key in TypeMap then TypeMap[key] else Fallback
  }

  /** `get_simplified_file_type`. */
  function SimplifiedFileType(input: string, urlExtension: Option<string>): (kind: string)
    ensures kind in Labels
  {
    assert forall k | k in TypeMap :: TypeMap[k] in Labels;
    Classify(Extension(input, urlExtension))
  }

  // ---------------------------------------------------------------------
  // Properties
  // ---------------------------------------------------------------------

  /** The result is always one of the nine labels, and it is the fallback
      exactly when the lower-cased extension is not in the table. */
  lemma ClassifyTotal(input: string, urlExtension: Option<string>)
    ensures SimplifiedFileType(input, urlExtension) in Labels
    ensures SimplifiedFileType(input, urlExtension) == Fallback
        <==> Lower(Extension(input, urlExtension)) !in TypeMap
  {
    assert forall k | k in TypeMap :: TypeMap[k] in Labels && TypeMap[k] != Fallback;
  }

  /** How the number of slashes in a non-URL input picks the extension. */
  lemma MimeExtensionBySlashes(s: string)
    ensures CountOf(s, '/') == 0 ==> MimeExtension(s) == s
    ensures CountOf(s, '/') == 1 ==> MimeExtension(s) == s[IndexOf(s, '/') + 1..]
    ensures CountOf(s, '/') >= 2 ==> MimeExtension(s) == ""
  {
    if CountOf(s, '/') == 1 {
      var i := IndexOf(s, '/');
      assert s == s[..i] + [s[i]] + s[i + 1..];
      CountOfAppend(s[..i] + [s[i]], s[i + 1..], '/');
      CountOfAppend(s[..i], [s[i]], '/');
      assert '/' !in s[i + 1..];
      assert Explode(s, '/') == [s[..i]] + Explode(s[i + 1..], '/');
      assert Explode(s[i + 1..], '/') == [s[i + 1..]];
    }
  }

  /** An input with two or more slashes is never recognised. */
  lemma ManySlashesGiveFallback(s: string)
    requires CountOf(s, '/') >= 2
    ensures SimplifiedFileType(s, None) == Fallback
  {
    MimeExtensionBySlashes(s);
    ClassifyEmpty();
  }

  /** The empty extension is not in the table. */
  lemma ClassifyEmpty()
    ensures Classify("") == Fallback
  {
    assert Lower("") == "";
    assert forall k | k in TypeMap :: |k| > 0;
  }

  /** `strtolower` leaves slashes where they are. */
  lemma {:induction false} LowerKeepsSlashes(s: string)
    ensures CountOf(Lower(s), '/') == CountOf(s, '/')
  {
    if |s| > 0 {
      assert Lower(s)[1..] == Lower(s[1..]);
      LowerKeepsSlashes(s[1..]);
    }
  }

  /** Lower-casing commutes with picking the extension out of a MIME type. */
  lemma MimeExtensionOfLower(s: string)
    ensures MimeExtension(Lower(s)) == Lower(MimeExtension(s))
  {
    var t := Lower(s);
    LowerKeepsSlashes(s);
    MimeExtensionBySlashes(s);
    MimeExtensionBySlashes(t);
    if CountOf(s, '/') == 1 {
      var i := IndexOf(s, '/');
      assert t[i] == '/';
      assert forall k :: 0 <= k < i ==> t[k] != '/';
      assert IndexOf(t, '/') == i;
      assert t[i + 1..] == Lower(s[i + 1..]);
    } else if CountOf(s, '/') >= 2 {
      assert Lower("") == "";
    }
  }

  /** Classification ignores case: an input and its lower-cased form get
      the same label. */
  lemma ClassificationIgnoresCase(s: string)
    ensures SimplifiedFileType(Lower(s), None) == SimplifiedFileType(s, None)
  {
    MimeExtensionOfLower(s);
    var e := MimeExtension(s);
    assert Lower(Lower(e)) == Lower(e);
  }

  // ---------------------------------------------------------------------
  // Counting posts per type
  // ---------------------------------------------------------------------

  /** The key a post is counted under: its record's `type` when that is a
      non-empty string. */
  function TypeKey(meta: Value): Option<string> {
    match Lookup(FileData.GetFileData(meta), "type")
    case Str(t) => if EmptyString(t) then None else Some(t)
    case _ => None
  }

  /** The key of every post, in order. */
  function TypeKeys(metas: seq<Value>): (keys: seq<Option<string>>)
    ensures |keys| == |metas|
    ensures forall i :: 0 <= i < |metas| ==> keys[i] == TypeKey(metas[i])
  {
    seq(|metas|, i requires 0 <= i < |metas| => TypeKey(metas[i]))
  }

  /** How many of `keys` are `Some(t)`. */
  function Occurrences(keys: seq<Option<string>>, t: string): nat
  {
    if |keys| == 0 then 0
    else Occurrences(keys[..|keys| - 1], t) + (if keys[|keys| - 1] == Some(t) then 1 else 0)
  }

  lemma {:induction false} OccurrencesPositive(keys: seq<Option<string>>, t: string)
    ensures Occurrences(keys, t) > 0 <==> Some(t) in keys
  {
    if |keys| > 0 {
      var init := keys[..|keys| - 1];
      OccurrencesPositive(init, t);
      assert keys == init + [keys[|keys| - 1]];
    }
  }

  lemma OccurrencesStep(keys: seq<Option<string>>, n: nat)
    requires n < |keys|
    ensures forall t :: Occurrences(keys[..n + 1], t)
                     == Occurrences(keys[..n], t) + (if keys[n] == Some(t) then 1 else 0)
  {
    assert keys[..n + 1][..n] == keys[..n];
  }

  /** A post counts under `t` exactly when some post's key is `t`. */
  lemma KeysOccur(metas: seq<Value>, t: string)
    ensures Occurrences(TypeKeys(metas), t) > 0
        <==> exists i :: 0 <= i < |metas| && TypeKey(metas[i]) == Some(t)
  {
    var keys := TypeKeys(metas);
    OccurrencesPositive(keys, t);
    if Some(t) in keys {
      var i :| 0 <= i < |keys| && keys[i] == Some(t);
      assert TypeKey(metas[i]) == Some(t);
    }
  }

  /** The counting loop of `get_cached_file_types`: one entry per type
      that occurs, holding the number of posts of that type. */
  method CountFileTypes(metas: seq<Value>) returns (counts: map<string, nat>)
    ensures forall t :: t in counts <==> exists i :: 0 <= i < |metas| && TypeKey(metas[i]) == Some(t)
    ensures forall t :: t in counts ==> counts[t] == Occurrences(TypeKeys(metas), t)
  {
    var keys := TypeKeys(metas);
    counts := CountKeys(keys);
    forall t
      ensures t in counts <==> exists i :: 0 <= i < |metas| && TypeKey(metas[i]) == Some(t)
    {
      KeysOccur(metas, t);
    }
  }

  /** The loop itself, over the posts' keys. */
  method CountKeys(keys: seq<Option<string>>) returns (counts: map<string, nat>)
    ensures forall t :: t in counts <==> Occurrences(keys, t) > 0
    ensures forall t :: t in counts ==> counts[t] == Occurrences(keys, t)
  {
    counts := map[];
    var n := 0;
    while n < |keys|
      invariant n <= |keys|
      invariant forall t :: t in counts <==> Occurrences(keys[..n], t) > 0
      invariant forall t :: t in counts ==> counts[t] == Occurrences(keys[..n], t)
    {
      OccurrencesStep(keys, n);
      match keys[n] {
        case Some(t) =>
          if t !in counts {
            counts := counts[t := 0];
          }
          counts := counts[t := counts[t] + 1];
        case None =>
      }
      n := n + 1;
    }
    assert keys[..n] == keys;
  }
}
