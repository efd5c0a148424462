/** Object keys of archived payloads: built from validated parts only, one key per snapshot. */
module ArchiveKey {
  import opened Text

  const SLASH: Unit := 47
  const DASH: Unit := 45
  const SUFFIX: Text := [46, 106, 115, 111, 110, 46, 103, 122]
  const PREFIX: Text := [114, 97, 119]
  const VERSION: Text := [118, 49]

  /** The closed set of archivable endpoint categories. */
  datatype Category = BattleLog | PlayerProfile | ClubProfile | PlayerRankings | BrawlersCatalog | Unarchivable

  function Segment(c: Category): Text
    requires c != Unarchivable
  {
    match c
    case BattleLog => [98, 97, 116, 116, 108, 101, 95, 108, 111, 103]
    case PlayerProfile => [112, 108, 97, 121, 101, 114, 95, 112, 114, 111, 102, 105, 108, 101]
    case ClubProfile => [99, 108, 117, 98, 95, 112, 114, 111, 102, 105, 108, 101]
    case PlayerRankings => [112, 108, 97, 121, 101, 114, 95, 114, 97, 110, 107, 105, 110, 103, 115]
    case BrawlersCatalog => [98, 114, 97, 119, 108, 101, 114, 115, 95, 99, 97, 116, 97, 108, 111, 103]
  }

  predicate HexUnit(u: Unit) {
    48 <= u <= 57 || 65 <= u <= 70 || 97 <= u <= 102
  }

  predicate ValidUuid(t: Text) {
    |t| == 36 && forall i :: 0 <= i < 36 ==> if i in {8, 13, 18, 23} then t[i] == DASH else HexUnit(t[i])
  }

  predicate ValidSha256(t: Text) {
    |t| == 64 && forall i :: 0 <= i < 64 ==> HexUnit(t[i])
  }

  function Lower(t: Text): (r: Text)
    ensures |r| == |t| && forall i :: 0 <= i < |t| ==> r[i] == if 65 <= t[i] <= 90 then t[i] + 32 else t[i]
  {
    seq(|t|, i requires 0 <= i < |t| => if 65 <= t[i] <= 90 then t[i] + 32 else t[i])
  }

  predicate AllDigits(t: Text) {
    forall i :: 0 <= i < |t| ==> 48 <= t[i] <= 57
  }

  /** A date as its zero-padded UTC year, month and day. */
  datatype Day = Day(year: Text, month: Text, day: Text) {
    predicate Digits() {
      && |year| >= 4 && |month| == 2 && |day| == 2
      && AllDigits(year) && AllDigits(month) && AllDigits(day)
    }
  }

  datatype Parts = Parts(snapshotId: Text, fetchRunId: Text, category: Category, checksum: Text, received: Day)

  datatype Problem = BadSnapshotId | BadFetchRunId | BadChecksum | BadCategory

  datatype Built = Key(text: Text) | Refused(problem: Problem)

  function FileName(p: Parts): Text {
    p.snapshotId + [DASH] + Lower(p.checksum) + SUFFIX
  }

  function Segments(p: Parts): seq<Text>
    requires p.category != Unarchivable
  {
    [PREFIX, VERSION, p.received.year, p.received.month, p.received.day, Segment(p.category), p.fetchRunId, FileName(p)]
  }

  /** `buildArchiveKey` for a valid date: the first invalid part refuses. */
  function BuildArchiveKey(p: Parts): Built {
    if !ValidUuid(p.snapshotId) then Refused(BadSnapshotId)
    else if !ValidUuid(p.fetchRunId) then Refused(BadFetchRunId)
    else if !ValidSha256(p.checksum) then Refused(BadChecksum)
    else if p.category == Unarchivable then Refused(BadCategory)
    else Key(Join(SLASH, Segments(p)))
  }

  /** The name of an archivable category. */
  ghost function NameOf(c: Category): string {
    match c
    case BattleLog => "battle_log"
    case PlayerProfile => "player_profile"
    case ClubProfile => "club_profile"
    case PlayerRankings => "player_rankings"
    case BrawlersCatalog => "brawlers_catalog"
    case Unarchivable => ""
  }

  ghost predicate IsHex(u: Unit) {
    '0' as int <= u as int <= '9' as int || 'a' as int <= u as int <= 'f' as int || 'A' as int <= u as int <= 'F' as int
  }

  /** 8-4-4-4-12 hexadecimal digits. */
  ghost predicate LooksLikeUuid(t: Text) {
    |t| == 36 && forall i :: 0 <= i < 36 ==>
      if i == 8 || i == 13 || i == 18 || i == 23 then t[i] as int == '-' as int else IsHex(t[i])
  }

  lemma NameIsAscii(c: Category)
    ensures forall i :: 0 <= i < |NameOf(c)| ==> (NameOf(c)[i] as int) < 128
  {
  }

  lemma SegmentReads(c: Category)
    requires c != Unarchivable
    ensures (forall i :: 0 <= i < |NameOf(c)| ==> (NameOf(c)[i] as int) < 128) && Segment(c) == Codes(NameOf(c))
  {
    NameIsAscii(c);
    var name, segment := NameOf(c), Segment(c);
    assert |name| == |segment|;
    forall i | 0 <= i < |name|
      ensures segment[i] == name[i] as int
    {
    }
    hide NameOf, Segment;
    assert segment == Codes(name);
  }

  lemma JoinFour(a: Text, b: Text, c: Text, d: Text, s: Unit)
    ensures Join(s, [a, b, c, d]) == a + [s] + (b + [s] + (c + [s] + d))
  {
    JoinCons(s, d, []);
    JoinCons(s, c, [d]);
    JoinCons(s, b, [c, d]);
    JoinCons(s, a, [b, c, d]);
    assert [c, d] == [c] + [d] && [b, c, d] == [b] + [c, d] && [a, b, c, d] == [a] + [b, c, d];
  }

  lemma JoinEight(a: Text, b: Text, c: Text, d: Text, e: Text, f: Text, g: Text, h: Text, s: Unit)
    ensures Join(s, [a, b, c, d, e, f, g, h])
         == a + [s] + (b + [s] + (c + [s] + (d + [s] + Join(s, [e, f, g, h]))))
  {
    hide Join;
    JoinCons(s, d, [e, f, g, h]);
    JoinCons(s, c, [d, e, f, g, h]);
    JoinCons(s, b, [c, d, e, f, g, h]);
    JoinCons(s, a, [b, c, d, e, f, g, h]);
    assert [d, e, f, g, h] == [d] + [e, f, g, h];
    assert [c, d, e, f, g, h] == [c] + [d, e, f, g, h];
    assert [b, c, d, e, f, g, h] == [b] + [c, d, e, f, g, h];
    assert [a, b, c, d, e, f, g, h] == [a] + [b, c, d, e, f, g, h];
  }

  /**
   * When a key is built and what it reads, part by part: two UUIDs, 64 hexadecimal digits and a known
   * category, or the first problem among them; and then
   * raw/v1/year/month/day/category/fetch run/snapshot-checksum.json.gz.
   */
  lemma KeyReads(p: Parts)
    ensures var sum := |p.checksum| == 64 && forall i :: 0 <= i < 64 ==> IsHex(p.checksum[i]);
      && (BuildArchiveKey(p) == Refused(BadSnapshotId) <==> !LooksLikeUuid(p.snapshotId))
      && (BuildArchiveKey(p) == Refused(BadFetchRunId) <==> LooksLikeUuid(p.snapshotId) && !LooksLikeUuid(p.fetchRunId))
      && (BuildArchiveKey(p) == Refused(BadChecksum) <==>
            LooksLikeUuid(p.snapshotId) && LooksLikeUuid(p.fetchRunId) && !sum)
      && (BuildArchiveKey(p) == Refused(BadCategory) <==>
            LooksLikeUuid(p.snapshotId) && LooksLikeUuid(p.fetchRunId) && sum && p.category == Unarchivable)
      && (BuildArchiveKey(p).Key? <==>
            LooksLikeUuid(p.snapshotId) && LooksLikeUuid(p.fetchRunId) && sum && p.category != Unarchivable)
    ensures BuildArchiveKey(p).Key? ==>
      (forall i :: 0 <= i < |NameOf(p.category)| ==> (NameOf(p.category)[i] as int) < 128)
    ensures BuildArchiveKey(p).Key? ==>
      var s := Codes("/");
      BuildArchiveKey(p).text == Codes("raw") + s + (Codes("v1") + s + (p.received.year + s + (p.received.month + s
        + (p.received.day + s + (Codes(NameOf(p.category)) + s + (p.fetchRunId + s
        + (p.snapshotId + Codes("-") + Lower(p.checksum) + Codes(".json.gz"))))))))
  {
    assert Codes("-") == [DASH] && Codes("/") == [SLASH] && Codes(".json.gz") == SUFFIX;
    assert Codes("raw") == PREFIX && Codes("v1") == VERSION;
    if BuildArchiveKey(p).Key? {
      SegmentReads(p.category);
      hide Join, Codes, Segment, NameOf, Lower;
      JoinFour(p.received.day, Segment(p.category), p.fetchRunId, FileName(p), SLASH);
      JoinEight(PREFIX, VERSION, p.received.year, p.received.month, p.received.day, Segment(p.category), p.fetchRunId,
                FileName(p), SLASH);
    }
  }

  lemma UuidHasNoSlash(t: Text)
    requires ValidUuid(t)
    ensures t != [] && Free(SLASH, t)
  {
  }

  lemma FileNameHasNoSlash(p: Parts)
    requires ValidUuid(p.snapshotId) && ValidSha256(p.checksum)
    ensures FileName(p) != [] && Free(SLASH, FileName(p))
  {
    UuidHasNoSlash(p.snapshotId);
    assert Free(SLASH, Lower(p.checksum));
  }

  lemma SegmentsAreClean(p: Parts)
    requires BuildArchiveKey(p).Key? && p.received.Digits()
    ensures forall s :: s in Segments(p) ==> s != [] && Free(SLASH, s)
  {
    UuidHasNoSlash(p.fetchRunId);
    FileNameHasNoSlash(p);
    hide FileName, Free;
    assert Free(SLASH, PREFIX) && Free(SLASH, VERSION) && Free(SLASH, Segment(p.category)) by {
      ConstantsHaveNoSlash(p.category);
    }
  }

  lemma ConstantsHaveNoSlash(c: Category)
    requires c != Unarchivable
    ensures Free(SLASH, PREFIX) && Free(SLASH, VERSION) && Free(SLASH, Segment(c))
  {
  }

  /**
   * A key names its snapshot: equal keys come from the same snapshot id, fetch run,
   * category and day, and from the same checksum up to letter case.
   */
  lemma KeyIdentifiesSnapshot(p: Parts, q: Parts)
    requires BuildArchiveKey(p).Key? && BuildArchiveKey(q).Key? && p.received.Digits() && q.received.Digits()
    ensures BuildArchiveKey(p) == BuildArchiveKey(q) <==>
            && p.snapshotId == q.snapshotId && p.fetchRunId == q.fetchRunId && p.category == q.category
            && p.received == q.received && Lower(p.checksum) == Lower(q.checksum)
  {
    if BuildArchiveKey(p) == BuildArchiveKey(q) {
      SegmentsAreClean(p);
      SegmentsAreClean(q);
      JoinIsInjective(SLASH, Segments(p), Segments(q));
      var s, t := Segments(p), Segments(q);
      assert s[2] == t[2] && s[3] == t[3] && s[4] == t[4] && s[5] == t[5] && s[6] == t[6] && s[7] == t[7];
      SegmentsDiffer(p.category, q.category);
      FileNamesDiffer(p, q);
    }
  }

  lemma SegmentsDiffer(c: Category, d: Category)
    requires c != Unarchivable && d != Unarchivable && Segment(c) == Segment(d)
    ensures c == d
  {
    assert |Segment(c)| == |Segment(d)|;
  }

  lemma FileNamesDiffer(p: Parts, q: Parts)
    requires |p.snapshotId| == |q.snapshotId| && |p.checksum| == |q.checksum| && FileName(p) == FileName(q)
    ensures p.snapshotId == q.snapshotId && Lower(p.checksum) == Lower(q.checksum)
  {
    var a, b := Lower(p.checksum), Lower(q.checksum);
    assert FileName(p) == p.snapshotId + ([DASH] + a + SUFFIX) && FileName(q) == q.snapshotId + ([DASH] + b + SUFFIX);
    SameLengthSplit(p.snapshotId, q.snapshotId, [DASH] + a + SUFFIX, [DASH] + b + SUFFIX);
    SameLengthSplit([DASH] + a, [DASH] + b, SUFFIX, SUFFIX);
    SameLengthSplit([DASH], [DASH], a, b);
  }
}
