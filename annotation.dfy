/** `process_image`: caption an image, ground its phrases, have the chat model reduce the
    labels to keywords, and build the image's metadata record from the file name, the
    keywords, the translation, the file size and the image size; then move the image into
    the run folder. Every library and service the script calls is a parameter. */
module Annotation {
  import opened Wrappers
  import opened Text
  import opened Paths
  import opened FilenameParser
  import opened Keywords

  /** What opening the file as an image gives: its size, or the way it failed. */
  datatype Opened = Opened(width: nat, height: nat) | NotFound | NotImage | OpenFailed(reason: string)

  /** The outside world as `process_image` sees it; each `Err`/`Some` carries the text of the
      exception raised. `caption` and `ground` are the two vision-model tasks on the image at
      a path; `chat` is the chat model's reply when it is sent the fixed instruction (drop
      articles and pronouns, keep each label's main word, singular, lower case, no duplicates,
      comma-separated) followed by the given comma-joined labels; `move` reports a failed move. */
  datatype Services = Services(
    open: string -> Opened,
    caption: string -> Result<string, string>,
    ground: (string, string) -> Result<seq<string>, string>,
    chat: string -> Result<string, string>,
    translate: string -> Result<string, string>,
    fileSize: string -> Result<nat, string>,
    move: (string, string) -> Option<string>)

  /** The keys of a finished record. */
  const RecordKeys: set<string> := {"SOURCE_TITLE", "DATE", "SOURCE_NUMBER", "PAGE_NUMBER",
    "FILENAME", "TITLE", "DESCRIPTION", "FILETYPE", "FILESIZE", "DIMENSIONS", "CAPTION", "KEYWORDS"}

  /** What the two models produced: the detailed caption and the chat reply. */
  datatype Analysis = Analysis(altText: string, reply: string)

  function InferenceError(reason: string): string {
    "Error during model inference: " + reason
  }

  function TranslationError(reason: string): string {
    "Translation error: " + reason
  }

  /** Python's `s[:n]`. */
  function Prefix(s: string, n: nat): (p: string)
    ensures |p| <= n && p <= s
    ensures |s| <= n ==> p == s
    ensures |s| > n ==> p == s[..n]
  {
    if |s| <= n then s else s[..n]
  }

  /** The title's tail: the reply's first 30 characters, spaces to `_`, commas dropped. */
  function TitleSuffix(keywords: string): string {
    Replace(Replace(Prefix(keywords, 30), " ", "_"), ",", "")
  }

  /** The record's TITLE: the file name without its extension, `__`, and the tail. */
  function Title(filename: string, keywords: string): string {
    SplitExt(filename).0 + "__" + TitleSuffix(keywords)
  }

  /** DIMENSIONS: height first, then width. */
  function Dimensions(width: nat, height: nat): string {
    NatToString(height) + " x " + NatToString(width)
  }

  /** The first try block: the caption, the grounding labels joined by `, `, and the chat
      reply about them. A failure inside the vision model is reported as an inference error. */
  function Analyse(path: string, svc: Services): Result<Analysis, string> {
    match svc.caption(path)
    case Err(e) => Err(InferenceError(e))
    case Ok(altText) =>
      match svc.ground(path, altText)
      case Err(e) => Err(InferenceError(e))
      case Ok(labels) =>
        match svc.chat(JoinWith(labels, ", "))
        case Err(e) => Err(e)
        case Ok(reply) => Ok(Analysis(altText, reply))
  }

  /** The eight fields the second try block adds to the file-name metadata, under their keys. */
  function Fields(filename: string, title: string, description: string, fileType: string,
                  fileSize: string, dimensions: string, caption: string, keywords: string): map<string, string> {
    map["FILENAME" := filename, "TITLE" := title, "DESCRIPTION" := description, "FILETYPE" := fileType,
        "FILESIZE" := fileSize, "DIMENSIONS" := dimensions, "CAPTION" := caption, "KEYWORDS" := keywords]
  }

  /** The second try block: file-name metadata, translation of the reply, file size, the
      record, and the move into the output folder under the same name. */
  function Describe(path: string, outDir: string, width: nat, height: nat, a: Analysis,
                    svc: Services): Result<map<string, string>, string> {
    var filename := Basename(path);
    match FilenameMetadata(filename)
    case Err(e) => Err(e)
    case Ok(meta) =>
      match svc.translate(a.reply)
      case Err(e) => Err(TranslationError(e))
      case Ok(caption) =>
        match svc.fileSize(path)
        case Err(e) => Err(e)
        case Ok(size) =>
          match svc.move(path, PathJoin(outDir, filename))
          case Some(e) => Err(e)
          case None =>
            Ok(meta + Fields(filename, Title(filename, a.reply), "AI-Generated: " + a.altText,
                             SplitExt(filename).1, NatToString(size), Dimensions(width, height),
                             caption, a.reply))
  }

  /** The whole of `process_image`, each stage's failure wrapped in that stage's message. */
  function Annotate(path: string, outDir: string, svc: Services): Result<map<string, string>, string> {
    match svc.open(path)
    case NotFound => Err("Image file " + path + " not found.")
    case NotImage => Err("Image file " + path + " is not a valid image.")
    case OpenFailed(reason) => Err("Error opening image file: " + reason)
    case Opened(width, height) =>
      match Analyse(path, svc)
      case Err(e) => Err("Error processing image: " + e)
      case Ok(a) =>
        match Describe(path, outDir, width, height, a, svc)
        case Err(e) => Err("Error updating metadata or moving image file: " + e)
        case Ok(record) => Ok(record)
  }

  /** `process_image`, step by step: the record starts as the file-name metadata and is
      updated in place with the eight other fields. */
  method ProcessImage(path: string, outDir: string, svc: Services)
    returns (r: Result<map<string, string>, string>)
    ensures r == Annotate(path, outDir, svc)
  {
    var image := svc.open(path);
    match image {
      case NotFound => return Err("Image file " + path + " not found.");
      case NotImage => return Err("Image file " + path + " is not a valid image.");
      case OpenFailed(reason) => return Err("Error opening image file: " + reason);
      case Opened(_, _) =>
    }
    var width, height := image.width, image.height;

    var captioned := svc.caption(path);
    if captioned.Err? {
      return Err("Error processing image: " + InferenceError(captioned.error));
    }
    var altText := captioned.value;
    var grounded := svc.ground(path, altText);
    if grounded.Err? {
      return Err("Error processing image: " + InferenceError(grounded.error));
    }
    var labelsList := JoinWith(grounded.value, ", ");
    var response := svc.chat(labelsList);
    if response.Err? {
      return Err("Error processing image: " + response.error);
    }
    var keywords := response.value;
    assert Analyse(path, svc) == Ok(Analysis(altText, keywords));
    // The sorted, de-duplicated keyword list is computed and then never used.
    var result := Canonical(keywords);

    var filename := Basename(path);
    var extracted := ExtractMetadata(filename);
    if extracted.Err? {
      return Err("Error updating metadata or moving image file: " + extracted.error);
    }
    var metadata := extracted.value;
    var translated := svc.translate(keywords);
    if translated.Err? {
      return Err("Error updating metadata or moving image file: " + TranslationError(translated.error));
    }
    var caption := translated.value;
    var title := Title(filename, keywords);
    var size := svc.fileSize(path);
    if size.Err? {
      return Err("Error updating metadata or moving image file: " + size.error);
    }
    var filesize := NatToString(size.value);
    var dimensions := Dimensions(width, height);
    var fileExtension := SplitExt(filename).1;
    metadata := metadata + map["FILENAME" := filename, "TITLE" := title,
        "DESCRIPTION" := "AI-Generated: " + altText, "FILETYPE" := fileExtension,
        "FILESIZE" := filesize, "DIMENSIONS" := dimensions,
        "CAPTION" := caption, "KEYWORDS" := keywords];
    var moved := svc.move(path, PathJoin(outDir, filename));
    if moved.Some? {
      return Err("Error updating metadata or moving image file: " + moved.value);
    }
    r := Ok(metadata);
    assert Describe(path, outDir, width, height, Analysis(altText, keywords), svc) == r;
  }

  // ---------------------------------------------------------------- what a record holds

  /** A record is produced exactly when every stage succeeds, the move coming last. */
  lemma AnnotateSucceeds(path: string, outDir: string, svc: Services)
    ensures Annotate(path, outDir, svc).Ok? <==>
      && svc.open(path).Opened?
      && Analyse(path, svc).Ok?
      && FilenameMetadata(Basename(path)).Ok?
      && svc.translate(Analyse(path, svc).value.reply).Ok?
      && svc.fileSize(path).Ok?
      && svc.move(path, PathJoin(outDir, Basename(path))).None?
  {
  }

  /** The analysis succeeds exactly when both vision tasks and the chat succeed, the chat being
      asked about the grounding labels. */
  lemma AnalyseSucceeds(path: string, svc: Services)
    ensures Analyse(path, svc).Ok? <==>
      && svc.caption(path).Ok?
      && svc.ground(path, svc.caption(path).value).Ok?
      && svc.chat(JoinWith(svc.ground(path, svc.caption(path).value).value, ", ")).Ok?
    ensures Analyse(path, svc).Ok? ==>
      Analyse(path, svc).value.altText == svc.caption(path).value
  {
  }

  /** A finished record is the file-name metadata updated with the eight other fields. */
  lemma AnnotateValue(path: string, outDir: string, svc: Services)
    requires Annotate(path, outDir, svc).Ok?
    ensures svc.open(path).Opened? && Analyse(path, svc).Ok? && FilenameMetadata(Basename(path)).Ok?
    ensures svc.translate(Analyse(path, svc).value.reply).Ok? && svc.fileSize(path).Ok?
    ensures var a := Analyse(path, svc).value;
      Annotate(path, outDir, svc).value
        == FilenameMetadata(Basename(path)).value
         + Fields(Basename(path), Title(Basename(path), a.reply), "AI-Generated: " + a.altText,
                  SplitExt(Basename(path)).1, NatToString(svc.fileSize(path).value),
                  Dimensions(svc.open(path).width, svc.open(path).height),
                  svc.translate(a.reply).value, a.reply)
  {
    var image := svc.open(path);
    var a := Analyse(path, svc).value;
    assert Annotate(path, outDir, svc) == Describe(path, outDir, image.width, image.height, a, svc);
  }

  /** Updating the four file-name fields with the eight others gives the twelve keys, none of
      the eight overwriting a file-name field. */
  lemma RecordKeysOf(meta: map<string, string>, fields: map<string, string>)
    requires meta.Keys == {"SOURCE_TITLE", "DATE", "SOURCE_NUMBER", "PAGE_NUMBER"}
    requires fields.Keys == {"FILENAME", "TITLE", "DESCRIPTION", "FILETYPE", "FILESIZE", "DIMENSIONS", "CAPTION", "KEYWORDS"}
    ensures (meta + fields).Keys == RecordKeys
    ensures forall k :: k in meta ==> (meta + fields)[k] == meta[k]
  {
    assert meta.Keys !! fields.Keys;
  }

  /** The record holds the file-name fields unchanged and each of the eight others under its key. */
  lemma RecordOf(meta: map<string, string>, filename: string, title: string, description: string,
                 fileType: string, fileSize: string, dimensions: string, caption: string, keywords: string)
    requires meta.Keys == {"SOURCE_TITLE", "DATE", "SOURCE_NUMBER", "PAGE_NUMBER"}
    ensures var m := meta + Fields(filename, title, description, fileType, fileSize, dimensions, caption, keywords);
      && m.Keys == RecordKeys
      && (forall k :: k in meta ==> m[k] == meta[k])
      && m["FILENAME"] == filename && m["TITLE"] == title && m["DESCRIPTION"] == description
      && m["FILETYPE"] == fileType && m["FILESIZE"] == fileSize && m["DIMENSIONS"] == dimensions
      && m["CAPTION"] == caption && m["KEYWORDS"] == keywords
  {
    RecordKeysOf(meta, Fields(filename, title, description, fileType, fileSize, dimensions, caption, keywords));
  }

  /** A finished record has exactly the twelve keys: the file-name fields, the name itself,
      the alt text as DESCRIPTION, height-first DIMENSIONS, the translation as CAPTION and the
      raw chat reply (not the sorted list) as KEYWORDS. */
  lemma AnnotateRecord(path: string, outDir: string, svc: Services)
    requires Annotate(path, outDir, svc).Ok?
    ensures svc.open(path).Opened? && Analyse(path, svc).Ok? && FilenameMetadata(Basename(path)).Ok?
    ensures svc.translate(Analyse(path, svc).value.reply).Ok? && svc.fileSize(path).Ok?
    ensures var m, name := Annotate(path, outDir, svc).value, Basename(path);
      var meta, a := FilenameMetadata(name).value, Analyse(path, svc).value;
      && m.Keys == RecordKeys
      && (forall k :: k in meta ==> m[k] == meta[k])
      && m["FILENAME"] == name
      && m["TITLE"] == Title(name, a.reply)
      && m["DESCRIPTION"] == "AI-Generated: " + a.altText
      && m["FILETYPE"] == SplitExt(name).1
      && m["FILESIZE"] == NatToString(svc.fileSize(path).value)
      && m["DIMENSIONS"] == Dimensions(svc.open(path).width, svc.open(path).height)
      && m["CAPTION"] == svc.translate(a.reply).value
      && m["KEYWORDS"] == a.reply
  {
    AnnotateValue(path, outDir, svc);
    var name, a := Basename(path), Analyse(path, svc).value;
    MetadataKeys(name);
    RecordOf(FilenameMetadata(name).value, name, Title(name, a.reply), "AI-Generated: " + a.altText,
             SplitExt(name).1, NatToString(svc.fileSize(path).value),
             Dimensions(svc.open(path).width, svc.open(path).height), svc.translate(a.reply).value, a.reply);
  }

  /** A finished record has exactly the twelve keys. */
  lemma AnnotateKeys(path: string, outDir: string, svc: Services)
    requires Annotate(path, outDir, svc).Ok?
    ensures Annotate(path, outDir, svc).value.Keys == RecordKeys
  {
    AnnotateRecord(path, outDir, svc);
  }

  /** The file-name fields reach the record unchanged. */
  lemma AnnotateKeepsMetadata(path: string, outDir: string, svc: Services)
    requires Annotate(path, outDir, svc).Ok?
    ensures FilenameMetadata(Basename(path)).Ok?
    ensures var m, meta := Annotate(path, outDir, svc).value, FilenameMetadata(Basename(path)).value;
      forall k :: k in meta ==> k in m && m[k] == meta[k]
  {
    AnnotateRecord(path, outDir, svc);
  }

  /** The file-name metadata has the four keys of the pattern's groups. */
  lemma MetadataKeys(filename: string)
    requires FilenameMetadata(filename).Ok?
    ensures FilenameMetadata(filename).value.Keys == {"SOURCE_TITLE", "DATE", "SOURCE_NUMBER", "PAGE_NUMBER"}
  {
  }

  /** An image whose name does not fit the pattern is not moved and fails with the message
      naming the file, once the models have run. */
  lemma UnmatchedNameFails(path: string, outDir: string, svc: Services)
    requires svc.open(path).Opened? && Analyse(path, svc).Ok?
    requires FilenameMetadata(Basename(path)).Err?
    ensures Annotate(path, outDir, svc)
         == Err("Error updating metadata or moving image file: " + MismatchError(Basename(path)))
  {
  }

  /** The title is the stem, `__`, and the reply's first 30 characters with spaces made
      underscores and commas dropped: at most 30 characters, none a space or a comma. */
  lemma TitleShape(filename: string, keywords: string)
    ensures Title(filename, keywords)
         == SplitExt(filename).0 + "__" + Without(Underscored(Prefix(keywords, 30)), ',')
    ensures |TitleSuffix(keywords)| <= 30
    ensures ' ' !in TitleSuffix(keywords) && ',' !in TitleSuffix(keywords)
  {
    var p := Prefix(keywords, 30);
    ReplaceSpaces(p);
    ReplaceCommas(Underscored(p));
    WithoutSpec(Underscored(p), ',');
    assert forall i :: 0 <= i < |p| ==> Underscored(p)[i] != ' ';
  }

  /** DIMENSIONS reads back: the leading digits are the height, then ` x `, then the width. */
  lemma DimensionsRoundTrip(width: nat, height: nat)
    ensures var d, n := Dimensions(width, height), DigitRun(Dimensions(width, height), 0);
      && n + 3 <= |d| && d[n..n + 3] == " x "
      && AllDigits(d[..n]) && DecimalValue(d[..n]) == height
      && AllDigits(d[n + 3..]) && DecimalValue(d[n + 3..]) == width
  {
    var h, w := NatToString(height), NatToString(width);
    var d := Dimensions(width, height);
    assert d == h + (" x " + w);
    DigitRunOfNumber(height, " x " + w);
    assert d[|h|..|h| + 3] == " x " && d[|h| + 3..] == w;
    NatToStringRoundTrip(height);
    NatToStringRoundTrip(width);
  }

  /** A plain name that fits the pattern and ends in `.jpg` has FILETYPE `.jpg` and a title
      that starts with the name minus `.jpg`. */
  lemma JpgFileType(filename: string, keywords: string)
    requires '/' !in filename && EndsWith(filename, ".jpg")
    requires FilenameMetadata(filename).Ok?
    ensures SplitExt(filename) == (filename[..|filename| - 4], ".jpg")
    ensures Title(filename, keywords) == filename[..|filename| - 4] + "__" + TitleSuffix(keywords)
  {
    GreedyIsFirstMatch(filename);
    var w := Greedy(filename).value;
    assert IsMatch(filename, w);
    assert filename[..|filename| - 4][w.title] == '_';
    SplitExtJpg(filename);
  }

  /** The image lands in the output folder under its own name. */
  lemma MovedKeepsName(path: string, outDir: string)
    ensures Basename(PathJoin(outDir, Basename(path))) == Basename(path)
  {
    BasenameOfJoin(outDir, Basename(path));
  }

  /** An archive name is a plain name: the stem of the pattern's parts, then `.jpg`. */
  lemma ArchiveNameShape(title: string, year: string, issue: string, page: string)
    requires '/' !in title && AllDigits(year) && AllDigits(issue) && AllDigits(page)
    ensures var name := ArchiveName(title, year, issue, page, '.');
      && '/' !in name && EndsWith(name, ".jpg")
      && name[..|name| - 4] == title + "_" + year + "_iss" + issue + "_Page" + page
  {
    var name := ArchiveName(title, year, issue, page, '.');
    var stem := title + "_" + year + "_iss" + issue + "_Page" + page;
    assert name == stem + ".jpg";
    assert name[..|name| - 4] == stem;
    assert name == title + ("_" + year + "_iss" + issue + "_Page" + page + ".jpg");
    assert forall i :: 0 <= i < |year| ==> year[i] != '/';
    assert forall i :: 0 <= i < |issue| ==> issue[i] != '/';
    assert forall i :: 0 <= i < |page| ==> page[i] != '/';
  }

  /** End to end: an image whose file name is `TITLE_YYYY_issN_PageM.jpg`, once every service
      succeeds, gets its title, year, issue and page from the name. */
  lemma ArchiveImageRecord(path: string, title: string, year: string, issue: string,
                           page: string, outDir: string, svc: Services)
    requires title != [] && '_' !in title && '\n' !in title
    requires |year| == 4 && AllDigits(year)
    requires issue != [] && AllDigits(issue) && page != [] && AllDigits(page)
    requires Basename(path) == ArchiveName(title, year, issue, page, '.')
    requires Annotate(path, outDir, svc).Ok?
    ensures var m := Annotate(path, outDir, svc).value;
      && m["SOURCE_TITLE"] == title && m["DATE"] == year
      && m["SOURCE_NUMBER"] == issue && m["PAGE_NUMBER"] == page
  {
    var name := Basename(path);
    ParsesArchiveName(title, year, issue, page, '.');
    var meta := FilenameMetadata(name).value;
    assert meta["SOURCE_TITLE"] == title && meta["DATE"] == year;
    assert meta["SOURCE_NUMBER"] == issue && meta["PAGE_NUMBER"] == page;
    AnnotateKeepsMetadata(path, outDir, svc);
  }

  /** ... and its FILETYPE is `.jpg` and its TITLE starts with the name without `.jpg`. */
  lemma ArchiveImageTitle(path: string, title: string, year: string, issue: string,
                          page: string, outDir: string, svc: Services)
    requires title != [] && '_' !in title && '\n' !in title && '/' !in title
    requires |year| == 4 && AllDigits(year)
    requires issue != [] && AllDigits(issue) && page != [] && AllDigits(page)
    requires Basename(path) == ArchiveName(title, year, issue, page, '.')
    requires Annotate(path, outDir, svc).Ok?
    ensures var m := Annotate(path, outDir, svc).value;
      && m["FILETYPE"] == ".jpg"
      && m["TITLE"] == title + "_" + year + "_iss" + issue + "_Page" + page + "__" + TitleSuffix(m["KEYWORDS"])
  {
    var name := Basename(path);
    ArchiveNameShape(title, year, issue, page);
    AnnotateRecord(path, outDir, svc);
    JpgFileType(name, Analyse(path, svc).value.reply);
  }
}
