/**
 * How `parse` and the formatter fit together: formatting a parsed record
 * gives back the name it came from, and parsing a formatted record gives
 * back the record exactly when the record is canonical.
 */
module RoundTrip {

  import opened Wrappers
  import opened Nom
  import opened SaveInfo
  import opened Parser

  // ---------------------------------------------------------------------
  // Each step of `parse` consumes the text the formatter writes for its field
  // ---------------------------------------------------------------------

  /** `opt(parse_tag_internal)` consumes exactly the internal marker of its value. */
  lemma OptInternalConsumes(s: string)
    ensures Opt(ParseTagInternal, s).Success?
    ensures s == InternalText(Opt(ParseTagInternal, s).value) + Opt(ParseTagInternal, s).rest
    ensures Opt(ParseTagInternal, s).value.Some? ==> IsInternalTag(Opt(ParseTagInternal, s).value.value)
  {
    var r := ParseTagInternal(s);
    if r.Success? {
      Assoc("__", r.value, "__", r.rest);
      assert InternalText(Some(r.value)) == "__" + r.value + "__";
    } else {
      assert InternalText(None) + s == s;
    }
  }

  /** `opt(parse_version)` consumes exactly the version part of its value. */
  lemma OptVersionConsumes(s: string)
    ensures OptVersion(s).Success?
    ensures s == VersionText(OptVersion(s).value) + OptVersion(s).rest
    ensures OptVersion(s).value.Some? ==> IsVersion(OptVersion(s).value.value)
  {
    if OptVersion(s).value.None? {
      assert VersionText(None) + s == s;
    }
  }

  /** `parse_suffix` consumes exactly the extension of its value. */
  lemma SuffixConsumes(s: string)
    requires ParseSuffix(s).Success?
    ensures s == ExtText(ParseSuffix(s).value)
  {
  }

  /** The extension the formatter writes is in the suffix language. */
  lemma ExtIsSuffixText(backup_id: Option<string>)
    requires backup_id.Some? ==> AllDigits(backup_id.value)
    ensures IsSuffixText(ExtText(backup_id))
  {
    ParseSuffixOf(backup_id);
  }

  // ---------------------------------------------------------------------
  // format(parse(s)) == s
  // ---------------------------------------------------------------------

  /** Whenever `parse` accepts a name, the look-ahead-accepted remainder is
      parsed again by steps 3 and 4; they cannot fail. */
  lemma ParseFailsOnlyInUserTag(s: string)
    ensures Parse(s).Failure? <==> ParseUserTag(Opt(ParseTagInternal, s).rest).Failure?
    ensures Parse(s).Success? ==>
      Parse(s).value.backup_id == VersionThenSuffix(ParseUserTag(Opt(ParseTagInternal, s).rest).rest).value
  {
    var s1 := Opt(ParseTagInternal, s).rest;
    var u := ParseUserTag(s1);
    if u.Success? {
      assert s1[4 + |u.value|..] == u.rest by {
        Assoc3("user", u.value, u.rest);
      }
      TailIsLookahead(u.rest);
    }
  }

  /** Formatting the record `parse` returns reproduces the name exactly. */
  lemma FormatParse(s: string)
    requires Parse(s).Success?
    ensures Parse(s).rest == []
    ensures Format(Parse(s).value) == s
  {
    var o := Opt(ParseTagInternal, s);
    OptInternalConsumes(s);
    var u := ParseUserTag(o.rest);
    var v := OptVersion(u.rest);
    OptVersionConsumes(u.rest);
    var b := ParseSuffix(v.rest);
    SuffixConsumes(v.rest);
    var info := Parse(s).value;
    assert info == SaveNameInfo(u.value, v.value, b.value, o.value);
    var tail := VersionText(v.value) + ExtText(b.value);
    assert u.rest == tail;
    Assoc3("user", u.value, u.rest);
    assert Format(info) == InternalText(o.value) + ("user" + (u.value + tail));
  }

  // ---------------------------------------------------------------------
  // parse(format(r)) == r for canonical records
  // ---------------------------------------------------------------------

  /** The tail language does not start anywhere inside the user tag. */
  predicate TagEndsFirst(tag: string, tail: string) {
    forall k :: 0 <= k < |tag| ==> !TailAt(tag + tail, k)
  }

  /** What the formatter writes after the user tag. */
  function TailText(info: SaveNameInfo): string {
    VersionText(info.version) + ExtText(info.backup_id)
  }

  /** The records `parse` can return: every field in its grammar, and the
      user tag not containing a place where the tail language could start. */
  predicate Canonical(info: SaveNameInfo) {
    && (info.internal_tag.Some? ==> IsInternalTag(info.internal_tag.value))
    && (info.version.Some? ==> IsVersion(info.version.value))
    && (info.backup_id.Some? ==> AllDigits(info.backup_id.value))
    && TagEndsFirst(info.tag, TailText(info))
  }

  /** The user tag `parse_user_tag` finds ends first in what follows it. */
  lemma UserTagEndsFirst(s: string)
    requires ParseUserTag(s).Success?
    ensures TagEndsFirst(ParseUserTag(s).value, ParseUserTag(s).rest)
  {
    var u := ParseUserTag(s);
    Assoc3("user", u.value, u.rest);
    assert s[4..] == u.value + u.rest;
    TailAtShift(s, 4);
    forall k | 0 <= k < |u.value|
      ensures !TailAt(u.value + u.rest, k)
    {
      assert !TailAt(s, k + 4);
    }
  }

  /** Every record `parse` returns is canonical. */
  lemma ParseCanonical(s: string)
    requires Parse(s).Success?
    ensures Canonical(Parse(s).value)
  {
    var o := Opt(ParseTagInternal, s);
    OptInternalConsumes(s);
    var u := ParseUserTag(o.rest);
    OptVersionConsumes(u.rest);
    SuffixConsumes(OptVersion(u.rest).rest);
    var info := Parse(s).value;
    assert info.tag == u.value;
    assert u.rest == TailText(info);
    UserTagEndsFirst(o.rest);
  }

  /** A canonical record's tail passes the look-ahead. */
  lemma CanonicalTail(info: SaveNameInfo)
    requires Canonical(info)
    ensures IsTail(TailText(info))
  {
    ExtIsSuffixText(info.backup_id);
    SuffixTextStart(ExtText(info.backup_id));
    match info.version
    case None =>
      assert TailText(info) == ExtText(info.backup_id);
      SuffixIsLookahead(ExtText(info.backup_id));
      LookaheadIsTail(TailText(info));
    case Some(v) =>
      VersionSuffixIsLookahead(v, ExtText(info.backup_id));
      LookaheadIsTail(TailText(info));
  }

  /** `opt(parse_version)` on the tail of a canonical record gives its version. */
  lemma OptVersionOfTail(info: SaveNameInfo)
    requires Canonical(info)
    ensures OptVersion(TailText(info)) == Success(ExtText(info.backup_id), info.version)
  {
    ExtIsSuffixText(info.backup_id);
    SuffixTextStart(ExtText(info.backup_id));
    match info.version
    case None =>
      assert TailText(info) == ExtText(info.backup_id);
    case Some(v) =>
      ParseVersionOf(v, ExtText(info.backup_id));
  }

  /** A user tag followed by a tail, with no tail starting inside it, is read back. */
  lemma UserTagOf(tag: string, tail: string)
    requires IsTail(tail) && TagEndsFirst(tag, tail)
    ensures ParseUserTag("user" + tag + tail) == Success(tail, tag)
  {
    var s := "user" + tag + tail;
    var k := 4 + |tag|;
    Assoc3("user", tag, tail);
    assert s[4..] == tag + tail;
    assert s[k..] == tail && s[4..k] == tag;
    TailAtShift(s, 4);
    ParseUserTagAt(s, k);
  }

  /** The user tag step on a formatted canonical record gives its tag. */
  lemma UserTagOfFormat(info: SaveNameInfo)
    requires Canonical(info)
    ensures ParseUserTag("user" + (info.tag + TailText(info))) == Success(TailText(info), info.tag)
  {
    CanonicalTail(info);
    Assoc3("user", info.tag, TailText(info));
    UserTagOf(info.tag, TailText(info));
  }

  /** The internal tag step on a formatted canonical record gives its internal tag. */
  lemma InternalOfFormat(info: SaveNameInfo, rest: string)
    requires Canonical(info) && "user" <= rest
    ensures Opt(ParseTagInternal, InternalText(info.internal_tag) + rest) == Success(rest, info.internal_tag)
  {
    match info.internal_tag
    case None =>
      assert InternalText(None) + rest == rest;
      assert rest[0] == 'u' by {
        assert rest[..4] == "user";
      }
    case Some(t) =>
      Assoc("__", t, "__", rest);
      ParseTagInternalOf(t, rest);
  }

  /** Parsing a formatted canonical record gives the record back. */
  lemma ParseFormat(info: SaveNameInfo)
    requires Canonical(info)
    ensures Parse(Format(info)) == Success([], info)
  {
    var rest := "user" + (info.tag + TailText(info));
    assert Format(info) == InternalText(info.internal_tag) + rest;
    InternalOfFormat(info, rest);
    UserTagOfFormat(info);
    OptVersionOfTail(info);
    ParseSuffixOf(info.backup_id);
  }

  /** `parse` is a one-to-one correspondence between the names it accepts
      and the canonical records, with the formatter as its inverse. */
  lemma ParseIff(s: string, info: SaveNameInfo)
    ensures Parse(s) == Success([], info) <==> Canonical(info) && Format(info) == s
  {
    if Parse(s) == Success([], info) {
      FormatParse(s);
      ParseCanonical(s);
    }
    if Canonical(info) && Format(info) == s {
      ParseFormat(info);
    }
  }

  // ---------------------------------------------------------------------
  // A simple sufficient condition, and why a condition is needed at all
  // ---------------------------------------------------------------------

  /** The tail language starts with `.dat`, or with `_` and then a digit or `.`. */
  lemma TailStart(t: string)
    requires IsTail(t)
    ensures |t| > 0 && (t[0] == '_' || t[0] == '.')
    ensures IsSuffixText(t) || (|t| > 1 && t[0] == '_' && (IsDigit(t[1]) || t[1] == '.'))
  {
    if IsSuffixText(t) {
      SuffixTextStart(t);
    } else {
      assert t[..1] == "_";
      var i :| 1 <= i <= |t| && IsVersion(t[1..i]) && IsSuffixText(t[i..]);
      if i == 1 {
        SuffixTextStart(t[1..]);
      } else {
        assert t[1..i][0] == t[1];
      }
    }
  }

  /** A user tag without `_` and `.` always ends where the formatter put its end. */
  lemma PlainTagEndsFirst(tag: string, tail: string)
    requires forall i :: 0 <= i < |tag| ==> tag[i] != '_' && tag[i] != '.'
    ensures TagEndsFirst(tag, tail)
  {
    forall k | 0 <= k < |tag|
      ensures !TailAt(tag + tail, k)
    {
      var t := (tag + tail)[k..];
      assert t[0] == tag[k];
      if IsTail(t) {
        TailStart(t);
      }
    }
  }

  /** No tail starts at a position from `lo` up to, not including, `k`. */
  lemma NoTailBetween(s: string, lo: nat, k: int)
    requires lo < k <= |s|
    requires forall j :: lo <= j < k ==> !(s[j] == '.' && IsSuffixText(s[j..]))
    requires forall j :: lo <= j < k - 1 ==> !(s[j] == '_' && (IsDigit(s[j + 1]) || s[j + 1] == '.'))
    requires s[k - 1] != '_'
    ensures forall j :: lo <= j < k ==> !TailAt(s, j)
  {
    forall j | lo <= j < k
      ensures !TailAt(s, j)
    {
      if TailAt(s, j) {
        TailStart(s[j..]);
      }
    }
  }

  /** Every tail holds a `.`, so no tail starts in a string without one. */
  lemma NoDotNoTail(s: string)
    requires forall i :: 0 <= i < |s| ==> s[i] != '.'
    ensures forall k :: !TailAt(s, k)
  {
    forall k | TailAt(s, k)
      ensures false
    {
      var t := s[k..];
      if IsSuffixText(t) {
        SuffixTextStart(t);
      } else {
        var i :| 1 <= i <= |t| && IsVersion(t[1..i]) && IsSuffixText(t[i..]);
        SuffixTextStart(t[i..]);
      }
    }
  }

  /** A user tag made of a plain part (no `_`, no `.`), `_` and digits is not
      kept when the internal tag and the backup id are well-formed: with no
      version it formats to the same name as the plain part with those digits
      as version, and that is what `parse` reads back. For instance the user
      tag `1_2` formats to `user1_2.dat`, which parses as user tag `1` with
      version `2`. */
  lemma TagWithVersionShapeIsNotKept(info: SaveNameInfo, plain: string, d: string)
    requires info.tag == plain + "_" + d && info.version.None?
    requires forall i :: 0 <= i < |plain| ==> plain[i] != '_' && plain[i] != '.'
    requires d != [] && AllDigits(d)
    requires info.internal_tag.Some? ==> IsInternalTag(info.internal_tag.value)
    requires info.backup_id.Some? ==> AllDigits(info.backup_id.value)
    ensures Parse(Format(info)) == Success([], info.(tag := plain, version := Some(d)))
    ensures Parse(Format(info)) != Success([], info)
  {
    var other := info.(tag := plain, version := Some(d));
    PlainTagEndsFirst(plain, TailText(other));
    assert IsDottedDigits(d);
    Assoc3(plain, "_" + d, ExtText(info.backup_id));
    assert info.tag + (VersionText(info.version) + ExtText(info.backup_id))
        == other.tag + (VersionText(other.version) + ExtText(other.backup_id));
    assert Format(other) == Format(info);
    ParseFormat(other);
  }

  /** Moving the last `_` of an enclosed internal tag past the closing `__`. */
  lemma UnderscoreShift(t: string, r: string)
    ensures "__" + (t + "_") + "__" + r == "__" + t + "__" + ("_" + r)
  {
    var a := "__" + (t + "_") + "__" + r;
    var b := "__" + t + "__" + ("_" + r);
    assert |a| == |b|;
    forall i | 0 <= i < |a|
      ensures a[i] == b[i]
    {
      if i < 2 + |t| {
      } else if i < 5 + |t| {
        assert a[i] == '_' && b[i] == '_';
      }
    }
  }

  /** A name where the marker of an internal tag `t` (no `__`, no final `_`)
      is followed by `_` instead of `user` is rejected. */
  lemma UnderscoreAfterMarker(t: string, r: string)
    requires IsInternalTag(t)
    ensures Parse("__" + t + "__" + ("_" + r)).Failure?
  {
    var s := "__" + t + "__" + ("_" + r);
    ParseTagInternalOf(t, "_" + r);
    assert Opt(ParseTagInternal, s) == Success("_" + r, Some(t));
    assert ("_" + r)[0] == '_';
    assert ParseUserTag("_" + r).Failure?;
  }

  /** An internal tag `t_`, where `t` is itself an internal tag (no `__` and
      no final `_`), is not kept: `take_until("__")` stops one character early
      and the name is rejected. For instance the internal tag `a_` formats to
      `__a___user1.dat`, where `parse` reads the internal tag `a` and then
      misses `user`. Without the condition on `t` the name may still parse,
      to a different record. */
  lemma InternalTagEndingInUnderscoreIsRejected(info: SaveNameInfo, t: string)
    requires info.internal_tag == Some(t + "_") && IsInternalTag(t)
    ensures Parse(Format(info)).Failure?
  {
    var rest := "user" + (info.tag + TailText(info));
    assert Format(info) == InternalText(info.internal_tag) + rest;
    UnderscoreShift(t, rest);
    UnderscoreAfterMarker(t, rest);
  }
}
