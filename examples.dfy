/**
 * The concrete cases the repository's own unit tests check, stated as
 * lemmas about the model: first the formatter's, then the parsers'.
 */
module FormatExamples {

  import opened Wrappers
  import opened SaveInfo

  // ---------------------------------------------------------------------
  // The formatter
  // ---------------------------------------------------------------------

  lemma FormatBasic()
    ensures Format(SaveNameInfo("1", None, None, None)) == "user1.dat"
  {
  }

  lemma FormatVersion()
    ensures Format(SaveNameInfo("4", Some("1.0.28650"), None, None)) == "user4_1.0.28650.dat"
  {
  }

  lemma FormatVersionBackup()
    ensures Format(SaveNameInfo("4", Some("1.0.28650"), Some("13"), None)) == "user4_1.0.28650.dat.bak13"
  {
  }

  lemma FormatVersionEmptyBackup()
    ensures Format(SaveNameInfo("4", Some("1.0.28650"), Some(""), None)) == "user4_1.0.28650.dat.bak"
  {
  }

  lemma FormatBackupOnly()
    ensures Format(SaveNameInfo("2", None, Some("15"), None)) == "user2.dat.bak15"
  {
  }

  lemma FormatEmptyBackupOnly()
    ensures Format(SaveNameInfo("2", None, Some(""), None)) == "user2.dat.bak"
  {
  }

  /** The internal marker goes in front of what the record without it gives:
      `__pin__user4_1.0.28650.dat.bak13`. */
  lemma FormatInternalTag()
    ensures Format(SaveNameInfo("4", Some("1.0.28650"), Some("13"), Some("pin")))
         == "__pin__" + "user4_1.0.28650.dat.bak13"
  {
    var info := SaveNameInfo("4", Some("1.0.28650"), Some("13"), None);
    FormatVersionBackup();
    assert InternalText(Some("pin")) == "__pin__";
    assert Format(info.(internal_tag := Some("pin"))) == "__pin__" + Format(info);
  }
}

module ParseExamples {

  import opened Wrappers
  import opened FormatExamples
  import opened Nom
  import opened SaveInfo
  import opened Parser
  import opened RoundTrip

  // ---------------------------------------------------------------------
  // The suffix parsers
  // ---------------------------------------------------------------------

  lemma SuffixDat()
    ensures ParseSuffix(".dat") == Success([], None)
  {
    ParseSuffixOf(None);
  }

  lemma SuffixEmptyBackup()
    ensures ParseSuffix(".dat.bak") == Success([], Some([]))
  {
    ParseSuffixOf(Some([]));
  }

  /** `.dat.bak123` */
  lemma SuffixBackup()
    ensures ParseSuffix(".dat.bak" + "123") == Success([], Some("123"))
  {
    ParseSuffixOf(Some("123"));
  }

  lemma SuffixError()
    ensures ParseSuffix("err") == Failure("err")
  {
    assert !(".dat" <= "err");
  }

  lemma SuffixBakBackup()
    ensures ParseSuffixBak(".bak123") == Success([], "123")
  {
    assert ".bak123" == ".bak" + "123";
  }

  lemma SuffixBakEmpty()
    ensures ParseSuffixBak(".bak") == Success([], [])
  {
  }

  lemma TagInternalAlone()
    ensures ParseTagInternal("__some_attr__") == Success([], "some_attr")
  {
    assert "__some_attr__" == "__" + "some_attr" + "__" + "";
    assert IsInternalTag("some_attr");
    ParseTagInternalOf("some_attr", "");
  }

  lemma TagInternalBeforeUser()
    ensures ParseTagInternal("__sometag__user2.dat") == Success("user2.dat", "sometag")
  {
    assert "__sometag__user2.dat" == "__" + "sometag" + "__" + "user2.dat";
    assert IsInternalTag("sometag");
    ParseTagInternalOf("sometag", "user2.dat");
  }

  /** The two version shapes the game writes are dotted digits. */
  lemma SilksongVersion()
    ensures IsDottedDigits("1.0.28891")
  {
  }

  lemma LegacyVersion()
    ensures IsDottedDigits("1.2.3.28891")
  {
  }

  lemma VersionHollowKnightSilksong()
    ensures ParseVersion("_1.0.28891") == Success([], "1.0.28891")
  {
    SilksongVersion();
    assert "_1.0.28891" == "_" + "1.0.28891" + "";
    ParseVersionOf("1.0.28891", "");
  }

  lemma VersionHollowKnight()
    ensures ParseVersion("_1.2.3.28891") == Success([], "1.2.3.28891")
  {
    LegacyVersion();
    assert "_1.2.3.28891" == "_" + "1.2.3.28891" + "";
    ParseVersionOf("1.2.3.28891", "");
  }

  lemma ParseBasic()
    ensures Parse("user1.dat") == Success([], SaveNameInfo("1", None, None, None))
  {
    var info := SaveNameInfo("1", None, None, None);
    PlainTagEndsFirst("1", TailText(info));
    FormatBasic();
    ParseFormat(info);
  }

  /** The tails of the user-tag tests: every suffix shape, with and without a version. */
  lemma SuffixTails()
    ensures IsTail(".dat") && IsTail(".dat.bak") && IsTail(".dat.bak" + "123")
  {
    ExtIsSuffixText(Some("123"));
  }

  lemma VersionTails()
    ensures IsTail("_" + "1.0.28891" + ".dat") && IsTail("_" + "1.0.28891" + (".dat.bak" + "123"))
  {
    SilksongVersion();
    ExtIsSuffixText(Some("123"));
    VersionSuffixIsLookahead("1.0.28891", ".dat");
    LookaheadIsTail("_" + "1.0.28891" + ".dat");
    VersionSuffixIsLookahead("1.0.28891", ".dat.bak" + "123");
    LookaheadIsTail("_" + "1.0.28891" + (".dat.bak" + "123"));
  }

  /** No tail starts inside the user tag `a-b_c__d.e`, whatever follows it. */
  lemma SymbolTagEndsFirst(tail: string)
    ensures TagEndsFirst("a-b_c__d.e", tail)
  {
    var s := "a-b_c__d.e" + tail;
    assert s[..10] == "a-b_c__d.e";
    assert s[8..][1] == 'e';
    NoTailBetween(s, 0, 10);
  }

  lemma UserTagBasic()
    ensures ParseUserTag("user1.dat") == Success(".dat", "1")
  {
    var s := "user1.dat";
    assert s[5..] == ".dat" && s[4..5] == "1";
    NoTailBetween(s, 4, 5);
    ParseUserTagAt(s, 5);
  }

  /** `user4_1.0.28891.dat` */
  lemma UserTagWithVersion()
    ensures ParseUserTag("user" + "4" + ("_" + "1.0.28891" + ".dat")) == Success("_" + "1.0.28891" + ".dat", "4")
  {
    VersionTails();
    PlainTagEndsFirst("4", "_" + "1.0.28891" + ".dat");
    UserTagOf("4", "_" + "1.0.28891" + ".dat");
  }

  /** `usera-b_c__d.e.dat` */
  lemma UserTagWithSymbols()
    ensures ParseUserTag("user" + "a-b_c__d.e" + ".dat") == Success(".dat", "a-b_c__d.e")
  {
    SuffixTails();
    SymbolTagEndsFirst(".dat");
    UserTagOf("a-b_c__d.e", ".dat");
  }

  /** `user1.dat.bak` and `user1.dat.bak123` */
  lemma UserTagBeforeBackup()
    ensures ParseUserTag("user" + "1" + ".dat.bak") == Success(".dat.bak", "1")
    ensures ParseUserTag("user" + "1" + (".dat.bak" + "123")) == Success(".dat.bak" + "123", "1")
  {
    SuffixTails();
    PlainTagEndsFirst("1", ".dat.bak");
    UserTagOf("1", ".dat.bak");
    PlainTagEndsFirst("1", ".dat.bak" + "123");
    UserTagOf("1", ".dat.bak" + "123");
  }

  /** `user4_1.0.28891.dat.bak123` */
  lemma UserTagBeforeVersionAndBackup()
    ensures ParseUserTag("user" + "4" + ("_" + "1.0.28891" + (".dat.bak" + "123")))
         == Success("_" + "1.0.28891" + (".dat.bak" + "123"), "4")
  {
    VersionTails();
    PlainTagEndsFirst("4", "_" + "1.0.28891" + (".dat.bak" + "123"));
    UserTagOf("4", "_" + "1.0.28891" + (".dat.bak" + "123"));
  }

  /** `userTest.dat` */
  lemma UserTagWord()
    ensures ParseUserTag("user" + "Test" + ".dat") == Success(".dat", "Test")
  {
    SuffixTails();
    PlainTagEndsFirst("Test", ".dat");
    UserTagOf("Test", ".dat");
  }

  /** `usera-b_c__d.e_1.0.28891.dat` and the same tag before the backup suffixes. */
  lemma UserTagSymbolsWithTails()
    ensures ParseUserTag("user" + "a-b_c__d.e" + ("_" + "1.0.28891" + ".dat"))
         == Success("_" + "1.0.28891" + ".dat", "a-b_c__d.e")
    ensures ParseUserTag("user" + "a-b_c__d.e" + ".dat.bak") == Success(".dat.bak", "a-b_c__d.e")
    ensures ParseUserTag("user" + "a-b_c__d.e" + (".dat.bak" + "123"))
         == Success(".dat.bak" + "123", "a-b_c__d.e")
    ensures ParseUserTag("user" + "a-b_c__d.e" + ("_" + "1.0.28891" + (".dat.bak" + "123")))
         == Success("_" + "1.0.28891" + (".dat.bak" + "123"), "a-b_c__d.e")
  {
    SuffixTails();
    VersionTails();
    SymbolTagEndsFirst("_" + "1.0.28891" + ".dat");
    UserTagOf("a-b_c__d.e", "_" + "1.0.28891" + ".dat");
    SymbolTagEndsFirst(".dat.bak");
    UserTagOf("a-b_c__d.e", ".dat.bak");
    SymbolTagEndsFirst(".dat.bak" + "123");
    UserTagOf("a-b_c__d.e", ".dat.bak" + "123");
    SymbolTagEndsFirst("_" + "1.0.28891" + (".dat.bak" + "123"));
    UserTagOf("a-b_c__d.e", "_" + "1.0.28891" + (".dat.bak" + "123"));
  }

  /** The user tag may itself look like a suffix: only the last `.dat` ends it. */
  lemma UserTagEndingInDat()
    ensures ParseUserTag("user1.dat.dat") == Success(".dat", "1.dat")
  {
    var s := "user1.dat.dat";
    assert s[9..] == ".dat" && s[4..9] == "1.dat";
    assert s[5..] == ".dat.dat";
    assert ".dat.dat"[5] != ".dat.bak"[5];
    NoTailBetween(s, 4, 9);
    ParseUserTagAt(s, 9);
  }

  // ---------------------------------------------------------------------
  // Whole names: `parse` accepts them and formatting gives them back
  // ---------------------------------------------------------------------

  /** The user tag of the two long names does not end early. */
  lemma LongTagEndsFirst(version: string)
    requires version == "1.0.28891" || version == "1.2.3.28891"
    ensures TagEndsFirst("aaa_bbb-ccc.ddd", "_" + version + ".dat.bak123")
  {
    var s := "aaa_bbb-ccc.ddd" + ("_" + version + ".dat.bak123");
    assert s[..15] == "aaa_bbb-ccc.ddd";
    assert s[4] == 'b';
    assert s[11..][2] == 'd';
    NoTailBetween(s, 0, 15);
  }

  lemma ParseWithVersion()
    ensures Parse("user2_1.0.28891.dat") == Success([], SaveNameInfo("2", Some("1.0.28891"), None, None))
    ensures Format(Parse("user2_1.0.28891.dat").value) == "user2_1.0.28891.dat"
  {
    var info := SaveNameInfo("2", Some("1.0.28891"), None, None);
    PlainTagEndsFirst("2", TailText(info));
    SilksongVersion();
    assert Format(info) == "user2_1.0.28891.dat";
    ParseFormat(info);
  }

  lemma ParseWithBackup()
    ensures Parse("user2.dat.bak123") == Success([], SaveNameInfo("2", None, Some("123"), None))
    ensures Format(Parse("user2.dat.bak123").value) == "user2.dat.bak123"
  {
    var info := SaveNameInfo("2", None, Some("123"), None);
    PlainTagEndsFirst("2", TailText(info));
    assert Format(info) == "user2.dat.bak123";
    ParseFormat(info);
  }

  /** The record of the two long names with every field present. */
  function LongInfo(version: string, internal_tag: string): SaveNameInfo {
    SaveNameInfo("aaa_bbb-ccc.ddd", Some(version), Some("123"), Some(internal_tag))
  }

  lemma LongName(version: string, internal_tag: string)
    requires version == "1.0.28891" || version == "1.2.3.28891"
    requires IsDottedDigits(version) && IsInternalTag(internal_tag)
    ensures Parse("__" + internal_tag + "__" + "user" + "aaa_bbb-ccc.ddd" + ("_" + version) + ".dat.bak123")
         == Success([], LongInfo(version, internal_tag))
  {
    var info := LongInfo(version, internal_tag);
    LongTagEndsFirst(version);
    assert TailText(info) == "_" + version + ".dat.bak123";
    var i, t, v, e := "__" + internal_tag + "__", "aaa_bbb-ccc.ddd", "_" + version, ".dat.bak123";
    assert Format(info) == i + ("user" + (t + (v + e)));
    Assoc(i, "user", t, v + e);
    Assoc3(i + "user" + t, v, e);
    ParseFormat(info);
  }

  /** `__pin__useraaa_bbb-ccc.ddd_1.0.28891.dat.bak123` */
  lemma ParseAllFields()
    ensures Parse("__pin__" + "user" + "aaa_bbb-ccc.ddd" + "_1.0.28891" + ".dat.bak123")
         == Success([], SaveNameInfo("aaa_bbb-ccc.ddd", Some("1.0.28891"), Some("123"), Some("pin")))
  {
    SilksongVersion();
    assert IsInternalTag("pin");
    assert "__" + "pin" + "__" == "__pin__";
    assert "_" + "1.0.28891" == "_1.0.28891";
    LongName("1.0.28891", "pin");
  }

  /** `__aa-bb_cc.dd__useraaa_bbb-ccc.ddd_1.2.3.28891.dat.bak123` */
  lemma ParseAllFieldsLegacy()
    ensures Parse("__aa-bb_cc.dd__" + "user" + "aaa_bbb-ccc.ddd" + "_1.2.3.28891" + ".dat.bak123")
         == Success([], SaveNameInfo("aaa_bbb-ccc.ddd", Some("1.2.3.28891"), Some("123"), Some("aa-bb_cc.dd")))
  {
    LegacyVersion();
    assert IsInternalTag("aa-bb_cc.dd");
    assert "__" + "aa-bb_cc.dd" + "__" == "__aa-bb_cc.dd__";
    assert "_" + "1.2.3.28891" == "_1.2.3.28891";
    LongName("1.2.3.28891", "aa-bb_cc.dd");
  }

  /** A name without the `.dat` suffix is rejected. */
  lemma ParseMissingSuffix()
    ensures Parse("usersomething").Failure?
  {
    var s := "usersomething";
    assert s[0] == 'u';
    assert forall i :: 0 <= i < |s| ==> s[i] != '.';
    NoDotNoTail(s);
    ParseFailsOnlyInUserTag(s);
  }

  /** A non-digit after `.bak` makes the suffix fail; it is not read as no backup. */
  lemma SuffixBadBackup()
    ensures ParseSuffix(".dat.bakx").Failure?
  {
    assert !AllDigits(".dat.bakx"[8..]) by {
      assert ".dat.bakx"[8] == 'x';
    }
  }

  // ---------------------------------------------------------------------
  // Edge cases: every part the grammar allows to be empty
  // ---------------------------------------------------------------------

  /** The look-ahead is tried before the first character is taken: the user tag may be empty. */
  lemma ParseEmptyTag()
    ensures Parse("user.dat") == Success([], SaveNameInfo("", None, None, None))
  {
    var info := SaveNameInfo("", None, None, None);
    assert Format(info) == "user.dat";
    ParseFormat(info);
  }

  /** Zero digit groups are a version: `_` alone gives an empty version. */
  lemma ParseEmptyVersion()
    ensures Parse("user1_.dat") == Success([], SaveNameInfo("1", Some(""), None, None))
  {
    var info := SaveNameInfo("1", Some(""), None, None);
    PlainTagEndsFirst("1", TailText(info));
    assert Format(info) == "user1_.dat";
    ParseFormat(info);
  }

  /** `take_until` may take nothing: `____` gives an empty internal tag. */
  lemma ParseEmptyInternalTag()
    ensures Parse("____user1.dat") == Success([], SaveNameInfo("1", None, None, Some("")))
  {
    var info := SaveNameInfo("1", None, None, Some(""));
    PlainTagEndsFirst("1", TailText(info));
    assert Format(info) == "____user1.dat";
    ParseFormat(info);
  }
}
