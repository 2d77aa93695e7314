/**
 * The decoded save-file name and its formatter (the `Display` impl), which
 * rebuilds the name as
 *   [`__` internal_tag `__`] `user` tag [`_` version] `.dat` [`.bak` backup_id]
 * where each bracketed part appears exactly when its field is present.
 */
module SaveInfo {

  import opened Wrappers

  datatype SaveNameInfo = SaveNameInfo(
    tag: string,
    version: Option<string>,
    backup_id: Option<string>,
    internal_tag: Option<string>)

  /** `SaveNameInfo::new`: builds the record from its four fields as given. */
  function New(tag: string, version: Option<string>, backup: Option<string>, internal_tag: Option<string>)
    : (info: SaveNameInfo)
    ensures info.tag == tag && info.version == version
    ensures info.backup_id == backup && info.internal_tag == internal_tag
  {
    SaveNameInfo(tag, version, backup, internal_tag)
  }

  /** The version part of the name: nothing, or `_` and the version. */
  function VersionText(version: Option<string>): (t: string)
    ensures t == [] <==> version.None?
    ensures version.Some? ==> |t| == 1 + |version.value| && t[0] == '_'
  {
    match version
    case None => ""
    case Some(v) => "_" + v
  }

  /** The extension: `.dat`, or `.dat.bak` and the backup id. */
  function ExtText(backup_id: Option<string>): (t: string)
    ensures |t| >= 4 && t[0] == '.' && t[1] == 'd'
    ensures |t| == 4 <==> backup_id.None?
    ensures backup_id.Some? ==> |t| == 8 + |backup_id.value|
  {
    match backup_id
    case None => ".dat"
    case Some(id) => ".dat.bak" + id
  }

  /** The internal marker: nothing, or the tag enclosed in `__` on both sides. */
  function InternalText(internal_tag: Option<string>): (t: string)
    ensures t == [] <==> internal_tag.None?
    ensures internal_tag.Some? ==> |t| == 4 + |internal_tag.value| && t[0] == '_' && t[1] == '_'
  {
    match internal_tag
    case None => ""
    case Some(t) => "__" + t + "__"
  }

  predicate EndsWith(s: string, t: string) {
    |t| <= |s| && s[|s| - |t|..] == t
  }

  /** The name a record stands for (`Display::fmt`). */
  function Format(info: SaveNameInfo): string {
    InternalText(info.internal_tag) + ("user" + (info.tag + (VersionText(info.version) + ExtText(info.backup_id))))
  }

  /** The literal `user` always follows the internal marker, and the user tag
      follows it verbatim. */
  lemma FormatLayout(info: SaveNameInfo)
    ensures |Format(info)| >= |InternalText(info.internal_tag)| + 4 + |info.tag| + 4
    ensures "user" <= Format(info)[|InternalText(info.internal_tag)|..]
    ensures info.tag <= Format(info)[|InternalText(info.internal_tag)| + 4..]
  {
    var internal_tag_str := InternalText(info.internal_tag);
    var rest := info.tag + (VersionText(info.version) + ExtText(info.backup_id));
    var name := internal_tag_str + ("user" + rest);
    assert name[|internal_tag_str|..] == "user" + rest;
    assert name[|internal_tag_str| + 4..] == rest;
  }

  /** The name starts with the internal marker when there is one, and with `user` otherwise. */
  lemma FormatStart(info: SaveNameInfo)
    ensures info.internal_tag.None? ==> "user" <= Format(info)
    ensures info.internal_tag.Some? ==> "__" + info.internal_tag.value + "__user" <= Format(info)
  {
    var name := Format(info);
    var k := |InternalText(info.internal_tag)|;
    FormatLayout(info);
    assert name[..k] == InternalText(info.internal_tag);
    assert name[..k + 4] == name[..k] + name[k..][..4];
  }

  /** The name ends in `.dat`, or in `.dat.bak` and the backup id when there is one. */
  lemma FormatEnd(info: SaveNameInfo)
    ensures info.backup_id.None? ==> EndsWith(Format(info), ".dat")
    ensures info.backup_id.Some? ==> EndsWith(Format(info), ".dat.bak" + info.backup_id.value)
    ensures EndsWith(Format(info), ExtText(info.backup_id))
  {
    var name := Format(info);
    var ext := ExtText(info.backup_id);
    var front := InternalText(info.internal_tag) + "user" + info.tag + VersionText(info.version);
    assert name == front + ext;
    assert name[|name| - |ext|..] == ext;
  }

  /** A present version `v` writes `_` and `v` right after the user tag and
      leaves the rest of the name as it is without a version. */
  lemma FormatVersionInserted(info: SaveNameInfo, v: string)
    ensures var b, k := Format(info.(version := None)), |InternalText(info.internal_tag)| + 4 + |info.tag|;
      k <= |b| && Format(info.(version := Some(v))) == b[..k] + "_" + v + b[k..]
  {
    var front := InternalText(info.internal_tag) + ("user" + info.tag);
    var ext := ExtText(info.backup_id);
    var b := Format(info.(version := None));
    assert b == front + ext;
    assert b[..|front|] == front && b[|front|..] == ext;
    assert Format(info.(version := Some(v))) == front + ("_" + v) + ext;
  }

  /** An empty backup id still marks a backup: `Some("")` and `None` never format alike. */
  lemma FormatBackupDistinct(info: SaveNameInfo)
    ensures Format(info.(backup_id := Some(""))) != Format(info.(backup_id := None))
  {
    var a, b := Format(info.(backup_id := Some(""))), Format(info.(backup_id := None));
    FormatEnd(info.(backup_id := Some("")));
    assert EndsWith(a, ".dat.bak");
    assert a[|a| - 1] == 'k';
  }
}
