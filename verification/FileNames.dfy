/** Names of the files a work product version is kept in, and the way back from a name. */
module FileNames {
  import opened Strings

  function Digits(n: nat): string {
    if n < 10 then [DigitChar(n)] else Digits(n / 10) + [DigitChar(n % 10)]
  }

  function DigitChar(d: nat): char
    requires d < 10
  {
    '0' + d as char
  }

  predicate IsDigit(c: char) {
    '0' <= c <= '9'
  }

  function ParseDigits(s: string): nat
    requires forall i | 0 <= i < |s| :: IsDigit(s[i])
  {
    if s == "" then 0
    else
      assert IsDigit(s[|s| - 1]);
      10 * ParseDigits(s[..|s| - 1]) + (s[|s| - 1] as int - '0' as int)
  }

  /** Decimal, zero-padded to two characters; a sign counts as one of them. */
  function FormatVersion(version: int): string {
    if version < 0 then "-" + Digits(-version)
    else if version < 10 then "0" + Digits(version)
    else Digits(version)
  }

  function FileName(artifactId: string, version: int): string {
    artifactId + "_v" + FormatVersion(version)
  }

  function DocumentName(artifactId: string, version: int): string {
    FileName(artifactId, version) + ".md"
  }

  function MetadataName(artifactId: string, version: int): string {
    FileName(artifactId, version) + ".json"
  }

  /** The glob `*_v*.json` that metadata is listed with. */
  predicate IsMetadataName(name: string) {
    var tag := Find(name, "_v", 0);
    tag != -1 && tag + 2 <= |name| - 5 && name[|name| - 5..] == ".json"
  }

  lemma {:induction false} DigitsParse(n: nat)
    ensures Digits(n) != "" && forall i | 0 <= i < |Digits(n)| :: IsDigit(Digits(n)[i])
    ensures ParseDigits(Digits(n)) == n
  {
    if n >= 10 {
      DigitsParse(n / 10);
      assert Digits(n)[..|Digits(n)| - 1] == Digits(n / 10);
    }
  }

  lemma {:induction false} LeadingZero(s: string)
    requires forall i | 0 <= i < |s| :: IsDigit(s[i])
    ensures ParseDigits("0" + s) == ParseDigits(s)
    decreases |s|
  {
    if s == "" {
      assert "0"[..0] == "";
    } else {
      LeadingZero(s[..|s| - 1]);
      assert ("0" + s)[..|"0" + s| - 1] == "0" + s[..|s| - 1];
    }
  }

  function ParseVersion(s: string): int
    requires s != "" && forall i | 0 <= i < |s| :: IsDigit(s[i]) || (i == 0 && s[i] == '-')
  {
    if s[0] == '-' then 0 - ParseDigits(s[1..]) else ParseDigits(s)
  }

  lemma DigitsLength(n: nat)
    ensures n < 10 ==> |Digits(n)| == 1
    ensures 10 <= n < 100 ==> |Digits(n)| == 2
    ensures 10 <= n ==> |Digits(n)| >= 2
  {
    if n >= 10 {
      DigitsParse(n / 10);
    }
  }

  /** A version is written with at least two characters and reads back. No character of it can end the "_v" tag before it. */
  lemma VersionParses(version: int)
    ensures var s := FormatVersion(version);
            && |s| >= 2 && (forall i | 0 <= i < |s| :: IsDigit(s[i]) || (i == 0 && s[i] == '-'))
            && ParseVersion(s) == version && (-10 < version < 100 ==> |s| == 2)
  {
    DigitsLength(if version < 0 then -version else version);
    hide ParseDigits, Digits;
    if version < 0 {
      DigitsParse(-version);
      assert FormatVersion(version)[1..] == Digits(-version);
    } else {
      DigitsParse(version);
      LeadingZero(Digits(version));
    }
  }

  /** The file name is an injective function of the artifact id and the version, whatever the id. */
  lemma FileNameInjective(id1: string, v1: int, id2: string, v2: int)
    requires FileName(id1, v1) == FileName(id2, v2)
    ensures id1 == id2 && v1 == v2
  {
    VersionParses(v1);
    VersionParses(v2);
    TagPosition(id1, FormatVersion(v1), id2, FormatVersion(v2));
  }

  predicate NoTagEnd(s: string) {
    forall i | 0 <= i < |s| :: s[i] != 'v'
  }

  lemma TagPosition(id1: string, s1: string, id2: string, s2: string)
    requires NoTagEnd(s1) && NoTagEnd(s2)
    requires id1 + "_v" + s1 == id2 + "_v" + s2
    ensures id1 == id2 && s1 == s2
  {
    var name1, name2 := id1 + "_v" + s1, id2 + "_v" + s2;
    assert name1[|id1| + 1] == 'v' && name2[|id2| + 1] == 'v';
    assert |id1| == |id2|;
    assert id1 == name1[..|id1|] && id2 == name2[..|id2|];
    assert s1 == name1[|id1| + 2..] && s2 == name2[|id2| + 2..];
  }

  /** Document and metadata names of any two versions never coincide, and each determines its version. */
  lemma NamesDistinct(id1: string, v1: int, id2: string, v2: int)
    ensures DocumentName(id1, v1) != MetadataName(id2, v2)
    ensures DocumentName(id1, v1) == DocumentName(id2, v2) <==> id1 == id2 && v1 == v2
    ensures MetadataName(id1, v1) == MetadataName(id2, v2) <==> id1 == id2 && v1 == v2
  {
    var d1, m2 := DocumentName(id1, v1), MetadataName(id2, v2);
    assert d1[|d1| - 1] == 'd' && m2[|m2| - 1] == 'n';
    if DocumentName(id1, v1) == DocumentName(id2, v2) {
      SameStem(FileName(id1, v1), FileName(id2, v2), ".md");
      FileNameInjective(id1, v1, id2, v2);
    }
    if MetadataName(id1, v1) == MetadataName(id2, v2) {
      SameStem(FileName(id1, v1), FileName(id2, v2), ".json");
      FileNameInjective(id1, v1, id2, v2);
    }
  }

  lemma SameStem(a: string, b: string, extension: string)
    requires a + extension == b + extension
    ensures a == b
  {
    assert |a| == |b|;
    assert a == (a + extension)[..|a|] && b == (b + extension)[..|b|];
  }

  /** The glob: something, "_v", something, ".json". */
  lemma GlobMatches(name: string)
    ensures IsMetadataName(name) <==> exists front, middle :: name == front + "_v" + middle + ".json"
  {
    if IsMetadataName(name) {
      var tag := Find(name, "_v", 0);
      var front, middle := name[..tag], name[tag + 2..|name| - 5];
      assert name == front + "_v" + middle + ".json";
    }
    if front, middle :| name == front + "_v" + middle + ".json" {
      assert name[|name| - 5..] == ".json" && name[|front|..|front| + 2] == "_v";
      assert OccursAt(name, "_v", |front|);
    }
  }

  /** Every metadata file is found by the glob that lists metadata. */
  lemma MetadataListed(artifactId: string, version: int)
    ensures IsMetadataName(MetadataName(artifactId, version))
  {
    var stem, name := FileName(artifactId, version), MetadataName(artifactId, version);
    assert name[|stem|..] == ".json";
    assert name[|artifactId|..|artifactId| + 2] == "_v";
    assert OccursAt(name, "_v", |artifactId|);
  }
}
