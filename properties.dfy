/** Properties of the gateway's decisions that relate several calls or hold
    for all inputs: what the extension of a name is, which names an allow-list
    admits, how the failure messages tell the error kinds apart, and the
    empty-listing discrepancy of `fileList`. */
module LibsProperties {
  import opened Text
  import opened Libs

  /** The configuration gate does not look at the bucket or the public URL:
      changing either never turns the config error on or off. */
  lemma ConfigGateIgnoresBucketAndUrl(cfg: Config, bucket: string, url: string)
    ensures ConfigPresent(cfg.(bucket := bucket, url := url)) == ConfigPresent(cfg)
    ensures ConfigPresent(Config("e", "a", "s", "", ""))
  {
  }

  /** The extension is exactly the text after the last dot of the name, or the
      whole name when it has no dot. */
  lemma ExtensionIsTextAfterLastDot(fileFullName: string, e: string)
    ensures e == Extension(fileFullName) <==> exists k :: SegmentStart(fileFullName, '.', k) && fileFullName[k..] == e
  {
    LastSegmentCharacterised(fileFullName, '.', e);
  }

  /** Whatever comes before the last dot, a dot-free tail is the extension. */
  lemma ExtensionOfDottedName(stem: string, e: string)
    requires '.' !in e
    ensures Extension(stem + "." + e) == e
  {
    var name := stem + "." + e;
    var k := |stem| + 1;
    assert name[k..] == e;
    assert name[k - 1] == '.';
    assert SegmentStart(name, '.', k);
    ExtensionIsTextAfterLastDot(name, e);
  }

  /** A name without a dot is its own extension. */
  lemma ExtensionWithoutDot(fileFullName: string)
    requires '.' !in fileFullName
    ensures Extension(fileFullName) == fileFullName
  {
    assert fileFullName[0..] == fileFullName;
    assert SegmentStart(fileFullName, '.', 0);
    ExtensionIsTextAfterLastDot(fileFullName, fileFullName);
  }

  /** A name is admitted exactly when the text after its last dot (or the
      whole name) is an entry of the allow-list in force. */
  lemma PermittedIffAllowedTail(fileExtRequired: seq<string>, fileFullName: string)
    ensures ExtensionPermitted(fileExtRequired, fileFullName) <==>
      exists k :: SegmentStart(fileFullName, '.', k) && fileFullName[k..] in AllowedExtensions(fileExtRequired)
  {
    var ext := Extension(fileFullName);
    ExtensionIsTextAfterLastDot(fileFullName, ext);
    var k0 :| SegmentStart(fileFullName, '.', k0) && fileFullName[k0..] == ext;
    if exists k :: SegmentStart(fileFullName, '.', k) && fileFullName[k..] in AllowedExtensions(fileExtRequired) {
      var k :| SegmentStart(fileFullName, '.', k) && fileFullName[k..] in AllowedExtensions(fileExtRequired);
      SegmentStartUnique(fileFullName, '.', k, k0);
    }
  }

  /** The default list has ten dot-free entries, so every one of them is the
      extension of some name and admits it when the caller gives no list. */
  lemma DefaultExtensionAdmitted(stem: string, e: string)
    requires e in DEFAULT_EXTENSIONS
    ensures |DEFAULT_EXTENSIONS| == 10
    ensures ExtensionPermitted([], stem + "." + e)
  {
    assert forall d :: d in DEFAULT_EXTENSIONS ==> '.' !in d;
    ExtensionOfDottedName(stem, e);
  }

  /** A caller's list replaces the default instead of extending it: with
      `["png"]` a `.jpg` name is refused. */
  lemma CallerListReplacesDefault(stem: string)
    ensures !ExtensionPermitted(["png"], stem + ".jpg")
    ensures ExtensionPermitted(["png"], stem + ".png")
  {
    assert stem + ".jpg" == stem + "." + "jpg";
    assert stem + ".png" == stem + "." + "png";
    ExtensionOfDottedName(stem, "jpg");
    ExtensionOfDottedName(stem, "png");
  }

  /** Membership is case-sensitive: any `<stem>.JPG` is refused by the default
      list, with the extension quoted as written. */
  lemma UpperCaseExtensionRefused(stem: string)
    ensures Extension(stem + ".JPG") == "JPG"
    ensures !ExtensionPermitted([], stem + ".JPG")
    ensures ProhibitedMessage(Extension(stem + ".JPG")) == "File extension 'JPG' prohibited."
  {
    assert stem + ".JPG" == stem + "." + "JPG";
    ExtensionOfDottedName(stem, "JPG");
  }

  /** Only the last dot counts: any `<stem>.tar.gz` has extension `gz`, refused
      by the default list and admitted by `["gz"]`. */
  lemma LastDotOnly(stem: string)
    ensures Extension(stem + ".tar.gz") == "gz"
    ensures !ExtensionPermitted([], stem + ".tar.gz") && ExtensionPermitted(["gz"], stem + ".tar.gz")
  {
    assert stem + ".tar.gz" == (stem + ".tar") + "." + "gz";
    ExtensionOfDottedName(stem + ".tar", "gz");
  }

  /** A trailing dot gives the empty extension, which the default list refuses. */
  lemma TrailingDotRefused(stem: string)
    ensures Extension(stem + ".") == ""
    ensures !ExtensionPermitted([], stem + ".")
  {
    assert stem + "." == stem + "." + "";
    ExtensionOfDottedName(stem, "");
  }

  /** The failure messages of the three error kinds (configuration,
      validation, transport) never coincide, so a caller can tell them apart. */
  lemma FailureMessagesDistinct(e: string, m: string)
    ensures CONFIG_ERROR_MESSAGE != ProhibitedMessage(e)
    ensures CONFIG_ERROR_MESSAGE != LIST_ERROR_PREFIX + m
    ensures CONFIG_ERROR_MESSAGE != UPLOAD_ERROR_PREFIX + m
    ensures CONFIG_ERROR_MESSAGE != DELETE_ERROR_PREFIX + m
    ensures ProhibitedMessage(e) != UPLOAD_ERROR_PREFIX + m
  {
    assert ProhibitedMessage(e)[0] == 'F';
    assert (LIST_ERROR_PREFIX + m)[0] == 'L';
    assert (UPLOAD_ERROR_PREFIX + m)[0] == 'U';
    assert (DELETE_ERROR_PREFIX + m)[0] == 'D';
  }

  /** The rejection message quotes the extension verbatim, so different
      extensions give different messages. */
  lemma ProhibitedMessageQuotesExtension(e1: string, e2: string)
    ensures ProhibitedMessage(e1) == ProhibitedMessage(e2) <==> e1 == e2
  {
  }

  /** The discrepancy of `fileList`: for a prefix that matches nothing the
      store answers without `Contents`; as written the gateway reports a
      failure, as intended it reports the empty listing. */
  method EmptyListing(cfg: Config, directoryPath: string)
    returns (asWritten: Result<seq<string>>, intended: Result<seq<string>>)
    requires ConfigPresent(cfg)
    ensures asWritten == Failure(LIST_ERROR_PREFIX + MISSING_CONTENTS_MESSAGE)
    ensures intended == Success([])
  {
    var emptyStore := (p: ListParams) => Ok(ListOutput(None));
    var callsAsWritten, callsIntended;
    asWritten, callsAsWritten := FileList(cfg, directoryPath, emptyStore);
    intended, callsIntended := FileListIntended(cfg, directoryPath, emptyStore);
  }
}
