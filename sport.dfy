/** The `Sport` enum of rust-people-db/src/constants.rs: its display names,
    emoji, the list of known sports, parsing from free text, and the serde
    encoding through the display name. */
module Sports {
  import opened Text

  datatype Sport =
    | Baseball | Soccer | Basketball | Tennis | Golf | Hockey | Cricket
    | Rugby | Handball | Football | Volleyball | WaterPolo | Equestrian
    | Swimming | Running | Cycling | Skating | Skateboarding | Surfing
    | Skiing | Snowboarding | Rowing | Wrestling
    | Other(name: string)

  /** The chars of a known sport's display name. */
  predicate NameChar(c: char) {
    'a' <= c <= 'z' || c == ' '
  }

  /** `impl Display for Sport`: the lower-case name of a known sport, and an
      `Other` sport's text verbatim. */
  function Name(s: Sport): (n: string)
    ensures s.Other? ==> n == s.name
    ensures !s.Other? ==> |n| > 0 && n[0] != ' ' && n[|n| - 1] != ' '
    ensures !s.Other? ==> forall c :: c in n ==> NameChar(c)
  {
    match s
    case Baseball => "baseball"
    case Soccer => "soccer"
    case Basketball => "basketball"
    case Tennis => "tennis"
    case Golf => "golf"
    case Hockey => "hockey"
    case Cricket => "cricket"
    case Rugby => "rugby"
    case Handball => "handball"
    case Football => "football"
    case Volleyball => "volleyball"
    case WaterPolo => "water polo"
    case Equestrian => "equestrian"
    case Swimming => "swimming"
    case Running => "running"
    case Cycling => "cycling"
    case Skating => "skating"
    case Skateboarding => "skateboarding"
    case Surfing => "surfing"
    case Skiing => "skiing"
    case Snowboarding => "snowboarding"
    case Rowing => "rowing"
    case Wrestling => "wrestling"
    case Other(name) => name
  }

  /** `Sport::emoji`: a pictograph for every known sport, nothing for
      `Other`. */
  function Emoji(s: Sport): (e: string)
    ensures e == "" <==> s.Other?
  {
    match s
    case Baseball => "\U{26BE}"
    case Soccer => "\U{26BD}"
    case Basketball => "\U{1F3C0}"
    case Tennis => "\U{1F3BE}"
    case Golf => "\U{26F3}"
    case Hockey => "\U{1F3D2}"
    case Cricket => "\U{1F3CF}"
    case Rugby => "\U{1F3C9}"
    case Handball => "\U{1F93E}"
    case Football => "\U{1F3C8}"
    case Volleyball => "\U{1F3D0}"
    case WaterPolo => "\U{1F93D}"
    case Equestrian => "\U{1F40E}"
    case Swimming => "\U{1F3CA}"
    case Running => "\U{1F3C3}"
    case Cycling => "\U{1F6B4}"
    case Skating => "\U{1F6FC}"
    case Skateboarding => "\U{1F6F9}"
    case Surfing => "\U{1F3C4}"
    case Skiing => "\U{1F3BF}"
    case Snowboarding => "\U{1F3C2}"
    case Rowing => "\U{1F6A3}"
    case Wrestling => "\U{1F93C}"
    case Other(_) => ""
  }

  /** The position of a known sport in `all_known_sports`. */
  function Ordinal(s: Sport): nat {
    match s
    case Baseball => 0
    case Soccer => 1
    case Basketball => 2
    case Tennis => 3
    case Golf => 4
    case Hockey => 5
    case Cricket => 6
    case Rugby => 7
    case Handball => 8
    case Football => 9
    case Volleyball => 10
    case WaterPolo => 11
    case Equestrian => 12
    case Swimming => 13
    case Running => 14
    case Cycling => 15
    case Skating => 16
    case Skateboarding => 17
    case Surfing => 18
    case Skiing => 19
    case Snowboarding => 20
    case Rowing => 21
    case Wrestling => 22
    case Other(_) => 23
  }

  /** `Sport::all_known_sports`: every variant but `Other`, once each. */
  function AllKnownSports(): (r: seq<Sport>)
    ensures |r| == 23
    ensures forall i :: 0 <= i < |r| ==> !r[i].Other? && Ordinal(r[i]) == i
    ensures forall s: Sport :: !s.Other? ==> s in r
  {
    var r := [Baseball, Soccer, Basketball, Tennis, Golf, Hockey, Cricket,
              Rugby, Handball, Football, Volleyball, WaterPolo, Equestrian,
              Swimming, Running, Cycling, Skating, Skateboarding, Surfing,
              Skiing, Snowboarding, Rowing, Wrestling];
    assert forall s: Sport :: !s.Other? ==> r[Ordinal(s)] == s;
    r
  }

  /** The known sports are pairwise distinct and none is `Other`. */
  lemma AllKnownSportsDistinct()
    ensures forall i, j :: 0 <= i < j < |AllKnownSports()| ==>
      AllKnownSports()[i] != AllKnownSports()[j]
    ensures forall s :: s in AllKnownSports() ==> !s.Other?
  {
    var r := AllKnownSports();
    forall i, j | 0 <= i < j < |r| ensures r[i] != r[j] {
      assert Ordinal(r[i]) != Ordinal(r[j]);
    }
  }

  // ---------------------------------------------------------------------
  // Parsing

  /** `char::is_whitespace`: the Unicode White_Space property. */
  predicate IsWhiteSpace(c: char) {
    || '\U{0009}' <= c <= '\U{000D}'
    || c == ' '
    || c == '\U{0085}'
    || c == '\U{00A0}'
    || c == '\U{1680}'
    || '\U{2000}' <= c <= '\U{200A}'
    || c == '\U{2028}'
    || c == '\U{2029}'
    || c == '\U{202F}'
    || c == '\U{205F}'
    || c == '\U{3000}'
  }

  /** `str::trim_start`: the leading white space removed. */
  function TrimStart(s: string): (r: string)
    ensures |r| <= |s| && r == s[|s| - |r|..]
    ensures forall i :: 0 <= i < |s| - |r| ==> IsWhiteSpace(s[i])
    ensures r == [] || !IsWhiteSpace(r[0])
  {
    if s != [] && IsWhiteSpace(s[0]) then TrimStart(s[1..]) else s
  }

  /** `str::trim_end`: the trailing white space removed. */
  function TrimEnd(s: string): (r: string)
    ensures |r| <= |s| && r == s[..|r|]
    ensures forall i :: |r| <= i < |s| ==> IsWhiteSpace(s[i])
    ensures r == [] || !IsWhiteSpace(r[|r| - 1])
  {
    if s != [] && IsWhiteSpace(s[|s| - 1]) then TrimEnd(s[..|s| - 1]) else s
  }

  /** `str::trim` */
  function Trim(s: string): string {
    TrimEnd(TrimStart(s))
  }

  /** What `from_string` matches on: `s.trim().to_lowercase()`. */
  function Normalize(s: string): string {
    ToLowerAscii(Trim(s))
  }

  /** `str::trim` keeps the text between the leading and the trailing white
      space, and that text neither starts nor ends with white space. */
  lemma TrimProperties(s: string)
    ensures var a, r := |s| - |TrimStart(s)|, Trim(s);
      && a + |r| <= |s| && r == s[a..a + |r|]
      && (forall i :: 0 <= i < a ==> IsWhiteSpace(s[i]))
      && (forall i :: a + |r| <= i < |s| ==> IsWhiteSpace(s[i]))
      && (r == [] || (!IsWhiteSpace(r[0]) && !IsWhiteSpace(r[|r| - 1])))
  {
    var u := TrimStart(s);
    var r := TrimEnd(u);
    var a := |s| - |u|;
    assert r == [] || r[0] == u[0];
    SliceOfSuffix(s, a, a + |r|);
    forall i | a + |r| <= i < |s| ensures IsWhiteSpace(s[i]) {
      assert s[i] == u[i - a];
    }
  }

  /** The normalised text has the trimmed text's length, holds each of its
      chars lower-cased, has no ASCII upper-case letter, and neither starts
      nor ends with white space. */
  lemma NormalizeProperties(s: string)
    ensures var t, r := Trim(s), Normalize(s);
      && |r| == |t|
      && (forall i :: 0 <= i < |r| ==> r[i] == LowerChar(t[i]) && !IsUpperAscii(r[i]))
      && (r == [] || (!IsWhiteSpace(r[0]) && !IsWhiteSpace(r[|r| - 1])))
  {
    var t := Trim(s);
    TrimProperties(s);
    ToLowerAsciiChars(t);
    if t != [] {
      LowerKeepsWhiteSpace(t[0]);
      LowerKeepsWhiteSpace(t[|t| - 1]);
    }
  }

  /** The `match` of `Sport::from_string`, applied to the normalised text. */
  function FromName(n: string): (r: Sport)
    ensures r.Other? ==> r.name == n
    ensures !r.Other? ==> Name(r) == n || (r == WaterPolo && n == "water_polo")
  {
    match n
    case "baseball" => Baseball
    case "soccer" => Soccer
    case "basketball" => Basketball
    case "tennis" => Tennis
    case "golf" => Golf
    case "hockey" => Hockey
    case "cricket" => Cricket
    case "rugby" => Rugby
    case "handball" => Handball
    case "football" => Football
    case "volleyball" => Volleyball
    case "water polo" | "water_polo" => WaterPolo
    case "equestrian" => Equestrian
    case "swimming" => Swimming
    case "running" => Running
    case "cycling" => Cycling
    case "skating" => Skating
    case "skateboarding" => Skateboarding
    case "surfing" => Surfing
    case "skiing" => Skiing
    case "snowboarding" => Snowboarding
    case "rowing" => Rowing
    case "wrestling" => Wrestling
    case other => Other(other)
  }

  /** `Sport::from_string` */
  function FromString(s: string): (r: Sport)
    ensures r.Other? ==> r.name == Normalize(s)
    ensures !r.Other? ==> Name(r) == Normalize(s) || (r == WaterPolo && Normalize(s) == "water_polo")
  {
    FromName(Normalize(s))
  }

  // ---------------------------------------------------------------------
  // Serde

  /** `Serialize`: the display name as a string. */
  function Serialize(s: Sport): (r: string)
    ensures s.Other? ==> r == s.name
    ensures !s.Other? ==> FromString(r) == s
  {
    if s.Other? then Name(s)
    else
      KnownRoundTrip(s);
      Name(s)
  }

  /** `Deserialize` through `SportVisitor::visit_str`, which accepts every
      string. */
  function Deserialize(value: string): (r: Sport)
    ensures r.Other? ==> r.name == Normalize(value)
    ensures !r.Other? ==> Serialize(r) == Normalize(value) || (r == WaterPolo && Normalize(value) == "water_polo")
  {
    FromString(value)
  }

  // ---------------------------------------------------------------------
  // Properties

  lemma {:induction false} TrimStartFixed(s: string)
    requires s == [] || !IsWhiteSpace(s[0])
    ensures TrimStart(s) == s
  {
  }

  /** A text whose ends are not white space is its own trim. */
  lemma TrimFixed(s: string)
    requires s == [] || (!IsWhiteSpace(s[0]) && !IsWhiteSpace(s[|s| - 1]))
    ensures Trim(s) == s
  {
    TrimStartFixed(s);
  }

  /** Trimming twice is trimming once. */
  lemma TrimIdempotent(s: string)
    ensures Trim(Trim(s)) == Trim(s)
  {
    var t := Trim(s);
    if t != [] {
      var u := TrimStart(s);
      assert t == u[..|t|];
      assert t[0] == u[0];
    }
    TrimFixed(t);
  }

  /** Lower-casing never turns a char into white space or back. */
  lemma LowerKeepsWhiteSpace(c: char)
    ensures IsWhiteSpace(LowerChar(c)) == IsWhiteSpace(c)
  {
  }

  lemma {:induction false} TrimStartLower(s: string)
    ensures TrimStart(ToLowerAscii(s)) == ToLowerAscii(TrimStart(s))
  {
    if s != [] {
      var lower := ToLowerAscii(s);
      var rest := ToLowerAscii(s[1..]);
      assert lower == [LowerChar(s[0])] + rest;
      ToLowerAsciiAt(s, 0);
      LowerKeepsWhiteSpace(s[0]);
      if IsWhiteSpace(s[0]) {
        DropHead(LowerChar(s[0]), rest);
        assert TrimStart(lower) == TrimStart(rest);
        assert TrimStart(s) == TrimStart(s[1..]);
        TrimStartLower(s[1..]);
      } else {
        assert TrimStart(lower) == lower;
        assert TrimStart(s) == s;
      }
    }
  }

  lemma {:induction false} TrimEndLower(s: string)
    ensures TrimEnd(ToLowerAscii(s)) == ToLowerAscii(TrimEnd(s))
  {
    if s != [] {
      var last := |s| - 1;
      var lower := ToLowerAscii(s);
      LowerKeepsWhiteSpace(s[last]);
      ToLowerAsciiAt(s, last);
      assert lower[last] == LowerChar(s[last]);
      if IsWhiteSpace(s[last]) {
        ToLowerAsciiTake(s, last);
        assert TrimEnd(lower) == TrimEnd(lower[..last]);
        assert TrimEnd(s) == TrimEnd(s[..last]);
        TrimEndLower(s[..last]);
      } else {
        assert TrimEnd(lower) == lower;
      }
    }
  }

  /** Trimming and lower-casing commute. */
  lemma TrimLowerCommute(s: string)
    ensures Trim(ToLowerAscii(s)) == ToLowerAscii(Trim(s))
  {
    TrimStartLower(s);
    TrimEndLower(TrimStart(s));
  }

  /** Normalising twice is normalising once. */
  lemma NormalizeIdempotent(s: string)
    ensures Normalize(Normalize(s)) == Normalize(s)
  {
    TrimLowerCommute(Trim(s));
    TrimIdempotent(s);
    ToLowerAsciiIdempotent(Trim(s));
  }

  /** Case and surrounding white space do not matter to `from_string`. */
  lemma FromStringIgnoresCaseAndSpace(x: string)
    ensures FromString(x) == FromString(Trim(ToLowerAscii(x)))
    ensures FromString(x) == FromString(ToLowerAscii(Trim(x)))
  {
    NormalizeIdempotent(x);
    TrimLowerCommute(x);
  }

  /** A text with no upper-case ASCII letter and no white space at either
      end is already normalised. */
  lemma NormalizeFixed(n: string)
    requires forall c :: c in n ==> !IsUpperAscii(c)
    requires n == [] || (!IsWhiteSpace(n[0]) && !IsWhiteSpace(n[|n| - 1]))
    ensures Normalize(n) == n
  {
    TrimFixed(n);
    ToLowerAsciiFixed(n);
  }

  /** A known sport's display name is already normalised. */
  lemma NameNormalized(s: Sport)
    requires !s.Other?
    ensures Normalize(Name(s)) == Name(s)
  {
    var n := Name(s);
    assert forall c :: c in n ==> !IsUpperAscii(c) by {
      forall c | c in n ensures !IsUpperAscii(c) {
        assert NameChar(c);
      }
    }
    NormalizeFixed(n);
  }

  /** The `match` maps each known name back to its sport. */
  lemma FromNameOfName(s: Sport)
    requires !s.Other?
    ensures FromName(Name(s)) == s
  {
    if Ordinal(s) < 12 {
      FromNameOfNameFirst(s);
    } else {
      FromNameOfNameLast(s);
    }
  }

  lemma FromNameOfNameFirst(s: Sport)
    requires !s.Other? && Ordinal(s) < 12
    ensures FromName(Name(s)) == s
  {
    match s
    case Baseball =>
    case Soccer =>
    case Basketball =>
    case Tennis =>
    case Golf =>
    case Hockey =>
    case Cricket =>
    case Rugby =>
    case Handball =>
    case Football =>
    case Volleyball =>
    case WaterPolo =>
    case _ =>
      assert false;
  }

  lemma FromNameOfNameLast(s: Sport)
    requires !s.Other? && Ordinal(s) >= 12
    ensures FromName(Name(s)) == s
  {
    match s
    case Equestrian =>
    case Swimming =>
    case Running =>
    case Cycling =>
    case Skating =>
    case Skateboarding =>
    case Surfing =>
    case Skiing =>
    case Snowboarding =>
    case Rowing =>
    case Wrestling =>
    case _ =>
      assert false;
  }

  /** Every known sport is parsed back from its display name. */
  lemma KnownRoundTrip(s: Sport)
    requires !s.Other?
    ensures FromString(Name(s)) == s
  {
    NameNormalized(s);
    FromNameOfName(s);
  }

  /** The same for every element of `all_known_sports`. */
  lemma AllKnownRoundTrip()
    ensures forall s :: s in AllKnownSports() ==> FromString(Name(s)) == s
  {
    forall s | s in AllKnownSports() ensures FromString(Name(s)) == s {
      AllKnownSportsDistinct();
      KnownRoundTrip(s);
    }
  }

  /** Both spellings give water polo, which displays with a space. */
  lemma WaterPoloSpellings()
    ensures FromString("water polo") == WaterPolo
    ensures FromString("water_polo") == WaterPolo
    ensures Name(WaterPolo) == "water polo"
  {
    KnownRoundTrip(WaterPolo);
    UnderscoreSpelling();
  }

  lemma UnderscoreSpelling()
    ensures FromString("water_polo") == WaterPolo
  {
    UnderscoreSpellingNormalized();
    FromNameUnderscore();
  }

  lemma FromNameUnderscore()
    ensures FromName("water_polo") == WaterPolo
  {
  }

  lemma UnderscoreSpellingNormalized()
    ensures Normalize("water_polo") == "water_polo"
  {
    NormalizeFixed("water_polo");
  }

  /** `from_string` gives `Other` exactly when the normalised text is no
      known sport's name and not `water_polo`, and `Other` then holds that
      normalised text. */
  lemma FromStringOther(x: string)
    ensures FromString(x).Other? <==>
      Normalize(x) != "water_polo" && forall k: Sport :: !k.Other? ==> Name(k) != Normalize(x)
    ensures FromString(x).Other? ==> FromString(x) == Other(Normalize(x))
  {
    var n := Normalize(x);
    if FromString(x).Other? {
      forall k: Sport | !k.Other? ensures Name(k) != n {
        if Name(k) == n {
          KnownRoundTrip(k);
          NormalizeIdempotent(x);
        }
      }
    }
  }

  /** An `Other` sport shows as its text and has no emoji. */
  lemma OtherDisplay(text: string)
    ensures Name(Other(text)) == text && Emoji(Other(text)) == ""
  {
  }

  /** Serialising then deserialising gives back every known sport, and an
      `Other` exactly when its text is normalised and names no known
      sport. */
  lemma SerdeRoundTrip(s: Sport)
    ensures !s.Other? ==> Deserialize(Serialize(s)) == s
    ensures s.Other? ==>
      (Deserialize(Serialize(s)) == s <==> Normalize(s.name) == s.name && FromName(s.name).Other?)
  {
    if !s.Other? {
      KnownRoundTrip(s);
    }
  }

  /** One leading space does not change the normalised text. */
  lemma LeadingSpaceNormalize(s: string)
    ensures Normalize([' '] + s) == Normalize(s)
  {
    assert ([' '] + s)[1..] == s;
    assert TrimStart([' '] + s) == TrimStart(s);
  }

  /** An `Other` whose text is a known name after trimming does not survive
      a serde round trip: it comes back as that known sport. */
  lemma OtherMayBecomeKnown(s: Sport)
    requires !s.Other?
    ensures Deserialize(Serialize(Other([' '] + Name(s)))) == s
    ensures Other([' '] + Name(s)) != s
  {
    LeadingSpaceNormalize(Name(s));
    KnownRoundTrip(s);
  }
}
