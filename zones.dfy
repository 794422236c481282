/**
 * The closed set of zone codes (`Zones`), its display string and the order in
 * which the `list` command prints it.
 */
module Zones {
  import opened Wrappers

  /** The zone codes in declaration order; PHGO2 to PHGO6 are spelt with a letter O. */
  datatype Zone =
    JHR01 | JHR02 | JHR03 | JHR04
    | KDH01 | KDH02 | KDH03 | KDH04 | KDH05 | KDH06 | KDH07
    | KTN01 | KTN03
    | MLK01
    | NGS01 | NGS02
    | PHG01 | PHGO2 | PHGO3 | PHGO4 | PHGO5 | PHGO6
    | PLS01
    | PNG01
    | PRK01 | PRK02 | PRK03 | PRK04 | PRK05 | PRK06 | PRK07
    | SBH01 | SBH02 | SBH03 | SBH04 | SBH05 | SBH06 | SBH07 | SBH08 | SBH09
    | SGR01 | SGR02 | SGR03
    | SWK01 | SWK02 | SWK03 | SWK04 | SWK05 | SWK06 | SWK07 | SWK08 | SWK09
    | TRG01 | TRG02 | TRG03 | TRG04
    | WLY01 | WLY02

  const ZoneCount: nat := 58

  /** The display string of a zone: the variant name itself. */
  function ZoneName(z: Zone): (name: string)
    ensures |name| == 5
  {
    match z
    case JHR01 => "JHR01" case JHR02 => "JHR02" case JHR03 => "JHR03" case JHR04 => "JHR04"
    case KDH01 => "KDH01" case KDH02 => "KDH02" case KDH03 => "KDH03" case KDH04 => "KDH04"
    case KDH05 => "KDH05" case KDH06 => "KDH06" case KDH07 => "KDH07"
    case KTN01 => "KTN01" case KTN03 => "KTN03"
    case MLK01 => "MLK01"
    case NGS01 => "NGS01" case NGS02 => "NGS02"
    case PHG01 => "PHG01" case PHGO2 => "PHGO2" case PHGO3 => "PHGO3" case PHGO4 => "PHGO4"
    case PHGO5 => "PHGO5" case PHGO6 => "PHGO6"
    case PLS01 => "PLS01"
    case PNG01 => "PNG01"
    case PRK01 => "PRK01" case PRK02 => "PRK02" case PRK03 => "PRK03" case PRK04 => "PRK04"
    case PRK05 => "PRK05" case PRK06 => "PRK06" case PRK07 => "PRK07"
    case SBH01 => "SBH01" case SBH02 => "SBH02" case SBH03 => "SBH03" case SBH04 => "SBH04"
    case SBH05 => "SBH05" case SBH06 => "SBH06" case SBH07 => "SBH07" case SBH08 => "SBH08"
    case SBH09 => "SBH09"
    case SGR01 => "SGR01" case SGR02 => "SGR02" case SGR03 => "SGR03"
    case SWK01 => "SWK01" case SWK02 => "SWK02" case SWK03 => "SWK03" case SWK04 => "SWK04"
    case SWK05 => "SWK05" case SWK06 => "SWK06" case SWK07 => "SWK07" case SWK08 => "SWK08"
    case SWK09 => "SWK09"
    case TRG01 => "TRG01" case TRG02 => "TRG02" case TRG03 => "TRG03" case TRG04 => "TRG04"
    case WLY01 => "WLY01" case WLY02 => "WLY02"
  }

  /** The zone declared at position `i` (0-based), looked up within its group of states. */
  function ZoneAt(i: nat): Zone
    requires i < ZoneCount
  {
    if i < 11 then
      match i
      case 0 => JHR01 case 1 => JHR02 case 2 => JHR03 case 3 => JHR04
      case 4 => KDH01 case 5 => KDH02 case 6 => KDH03 case 7 => KDH04
      case 8 => KDH05 case 9 => KDH06 case _ => KDH07
    else if i < 22 then
      match i
      case 11 => KTN01 case 12 => KTN03 case 13 => MLK01 case 14 => NGS01
      case 15 => NGS02 case 16 => PHG01 case 17 => PHGO2 case 18 => PHGO3
      case 19 => PHGO4 case 20 => PHGO5 case _ => PHGO6
    else if i < 31 then
      match i
      case 22 => PLS01 case 23 => PNG01 case 24 => PRK01 case 25 => PRK02
      case 26 => PRK03 case 27 => PRK04 case 28 => PRK05 case 29 => PRK06
      case _ => PRK07
    else if i < 40 then
      match i
      case 31 => SBH01 case 32 => SBH02 case 33 => SBH03 case 34 => SBH04
      case 35 => SBH05 case 36 => SBH06 case 37 => SBH07 case 38 => SBH08
      case _ => SBH09
    else if i < 52 then
      match i
      case 40 => SGR01 case 41 => SGR02 case 42 => SGR03 case 43 => SWK01
      case 44 => SWK02 case 45 => SWK03 case 46 => SWK04 case 47 => SWK05
      case 48 => SWK06 case 49 => SWK07 case 50 => SWK08 case _ => SWK09
    else
      match i
      case 52 => TRG01 case 53 => TRG02 case 54 => TRG03 case 55 => TRG04
      case 56 => WLY01 case _ => WLY02
  }

  /** The declaration position of a zone. */
  function ZoneIndex(z: Zone): (i: nat)
    ensures i < ZoneCount && ZoneAt(i) == z
  {
    match z
    case JHR01 => 0 case JHR02 => 1 case JHR03 => 2 case JHR04 => 3
    case KDH01 => 4 case KDH02 => 5 case KDH03 => 6 case KDH04 => 7
    case KDH05 => 8 case KDH06 => 9 case KDH07 => 10
    case KTN01 => 11 case KTN03 => 12
    case MLK01 => 13
    case NGS01 => 14 case NGS02 => 15
    case PHG01 => 16 case PHGO2 => 17 case PHGO3 => 18 case PHGO4 => 19
    case PHGO5 => 20 case PHGO6 => 21
    case PLS01 => 22
    case PNG01 => 23
    case PRK01 => 24 case PRK02 => 25 case PRK03 => 26 case PRK04 => 27
    case PRK05 => 28 case PRK06 => 29 case PRK07 => 30
    case SBH01 => 31 case SBH02 => 32 case SBH03 => 33 case SBH04 => 34
    case SBH05 => 35 case SBH06 => 36 case SBH07 => 37 case SBH08 => 38
    case SBH09 => 39
    case SGR01 => 40 case SGR02 => 41 case SGR03 => 42
    case SWK01 => 43 case SWK02 => 44 case SWK03 => 45 case SWK04 => 46
    case SWK05 => 47 case SWK06 => 48 case SWK07 => 49 case SWK08 => 50
    case SWK09 => 51
    case TRG01 => 52 case TRG02 => 53 case TRG03 => 54 case TRG04 => 55
    case WLY01 => 56 case WLY02 => 57
  }

  /** Every zone in declaration order, as the enumeration iterator yields them. */
  function AllZones(): (zs: seq<Zone>)
    ensures |zs| == ZoneCount
    ensures forall i :: 0 <= i < ZoneCount ==> zs[i] == ZoneAt(i)
  {
    seq(ZoneCount, i requires 0 <= i < ZoneCount => ZoneAt(i))
  }

  /** Positions and zones correspond one to one. */
  lemma IndexOfZoneAt(i: nat)
    requires i < ZoneCount
    ensures ZoneIndex(ZoneAt(i)) == i
  {
    if i < 11 {
      IndexOfZoneAtJhrToKdh(i);
    } else if i < 22 {
      IndexOfZoneAtKtnToPhg(i);
    } else if i < 31 {
      IndexOfZoneAtPlsToPrk(i);
    } else if i < 40 {
      IndexOfZoneAtSbh(i);
    } else if i < 52 {
      IndexOfZoneAtSgrToSwk(i);
    } else {
      IndexOfZoneAtTrgToWly(i);
    }
  }

  /** `IndexOfZoneAt` for the positions 0 to 10. */
  lemma IndexOfZoneAtJhrToKdh(i: nat)
    requires i < 11
    ensures ZoneIndex(ZoneAt(i)) == i
  {
    match i
    case 0 =>
    case 1 =>
    case 2 =>
    case 3 =>
    case 4 =>
    case 5 =>
    case 6 =>
    case 7 =>
    case 8 =>
    case 9 =>
    case 10 =>
    case _ =>
  }

  /** `IndexOfZoneAt` for the positions 11 to 21. */
  lemma IndexOfZoneAtKtnToPhg(i: nat)
    requires 11 <= i < 22
    ensures ZoneIndex(ZoneAt(i)) == i
  {
    match i
    case 11 =>
    case 12 =>
    case 13 =>
    case 14 =>
    case 15 =>
    case 16 =>
    case 17 =>
    case 18 =>
    case 19 =>
    case 20 =>
    case 21 =>
    case _ =>
  }

  /** `IndexOfZoneAt` for the positions 22 to 30. */
  lemma IndexOfZoneAtPlsToPrk(i: nat)
    requires 22 <= i < 31
    ensures ZoneIndex(ZoneAt(i)) == i
  {
    match i
    case 22 =>
    case 23 =>
    case 24 =>
    case 25 =>
    case 26 =>
    case 27 =>
    case 28 =>
    case 29 =>
    case 30 =>
    case _ =>
  }

  /** `IndexOfZoneAt` for the positions 31 to 39. */
  lemma IndexOfZoneAtSbh(i: nat)
    requires 31 <= i < 40
    ensures ZoneIndex(ZoneAt(i)) == i
  {
    match i
    case 31 =>
    case 32 =>
    case 33 =>
    case 34 =>
    case 35 =>
    case 36 =>
    case 37 =>
    case 38 =>
    case 39 =>
    case _ =>
  }

  /** `IndexOfZoneAt` for the positions 40 to 51. */
  lemma IndexOfZoneAtSgrToSwk(i: nat)
    requires 40 <= i < 52
    ensures ZoneIndex(ZoneAt(i)) == i
  {
    match i
    case 40 =>
    case 41 =>
    case 42 =>
    case 43 =>
    case 44 =>
    case 45 =>
    case 46 =>
    case 47 =>
    case 48 =>
    case 49 =>
    case 50 =>
    case 51 =>
    case _ =>
  }

  /** `IndexOfZoneAt` for the positions 52 to 57. */
  lemma IndexOfZoneAtTrgToWly(i: nat)
    requires 52 <= i < 58
    ensures ZoneIndex(ZoneAt(i)) == i
  {
    match i
    case 52 =>
    case 53 =>
    case 54 =>
    case 55 =>
    case 56 =>
    case 57 =>
    case _ =>
  }

  /** The enumeration lists every zone exactly once. */
  lemma AllZonesListsEachZoneOnce(z: Zone)
    ensures z in AllZones()
    ensures forall i :: 0 <= i < ZoneCount && AllZones()[i] == z ==> i == ZoneIndex(z)
  {
    assert AllZones()[ZoneIndex(z)] == z;
    forall i | 0 <= i < ZoneCount && AllZones()[i] == z ensures i == ZoneIndex(z) {
      IndexOfZoneAt(i);
    }
  }

  /** Reads a zone from its code, as the command line and the configuration file do. */
  function ParseZone(s: string): (r: Option<Zone>)
    ensures r.Some? ==> |s| == 5
  {
    match s
    case "JHR01" => Some(JHR01) case "JHR02" => Some(JHR02) case "JHR03" => Some(JHR03)
    case "JHR04" => Some(JHR04)
    case "KDH01" => Some(KDH01) case "KDH02" => Some(KDH02) case "KDH03" => Some(KDH03)
    case "KDH04" => Some(KDH04) case "KDH05" => Some(KDH05) case "KDH06" => Some(KDH06)
    case "KDH07" => Some(KDH07)
    case "KTN01" => Some(KTN01) case "KTN03" => Some(KTN03)
    case "MLK01" => Some(MLK01)
    case "NGS01" => Some(NGS01) case "NGS02" => Some(NGS02)
    case "PHG01" => Some(PHG01) case "PHGO2" => Some(PHGO2) case "PHGO3" => Some(PHGO3)
    case "PHGO4" => Some(PHGO4) case "PHGO5" => Some(PHGO5) case "PHGO6" => Some(PHGO6)
    case "PLS01" => Some(PLS01)
    case "PNG01" => Some(PNG01)
    case "PRK01" => Some(PRK01) case "PRK02" => Some(PRK02) case "PRK03" => Some(PRK03)
    case "PRK04" => Some(PRK04) case "PRK05" => Some(PRK05) case "PRK06" => Some(PRK06)
    case "PRK07" => Some(PRK07)
    case "SBH01" => Some(SBH01) case "SBH02" => Some(SBH02) case "SBH03" => Some(SBH03)
    case "SBH04" => Some(SBH04) case "SBH05" => Some(SBH05) case "SBH06" => Some(SBH06)
    case "SBH07" => Some(SBH07) case "SBH08" => Some(SBH08) case "SBH09" => Some(SBH09)
    case "SGR01" => Some(SGR01) case "SGR02" => Some(SGR02) case "SGR03" => Some(SGR03)
    case "SWK01" => Some(SWK01) case "SWK02" => Some(SWK02) case "SWK03" => Some(SWK03)
    case "SWK04" => Some(SWK04) case "SWK05" => Some(SWK05) case "SWK06" => Some(SWK06)
    case "SWK07" => Some(SWK07) case "SWK08" => Some(SWK08) case "SWK09" => Some(SWK09)
    case "TRG01" => Some(TRG01) case "TRG02" => Some(TRG02) case "TRG03" => Some(TRG03)
    case "TRG04" => Some(TRG04)
    case "WLY01" => Some(WLY01) case "WLY02" => Some(WLY02)
    case _ => None
  }

  /** Every zone is read back from its display string. */
  lemma ParseZoneName(z: Zone)
    ensures ParseZone(ZoneName(z)) == Some(z)
  {
    if ZoneIndex(z) < 11 {
      ParseZoneNameJhrToKdh(z);
    } else if ZoneIndex(z) < 22 {
      ParseZoneNameKtnToPhg(z);
    } else if ZoneIndex(z) < 31 {
      ParseZoneNamePlsToPrk(z);
    } else if ZoneIndex(z) < 40 {
      ParseZoneNameSbh(z);
    } else if ZoneIndex(z) < 52 {
      ParseZoneNameSgrToSwk(z);
    } else {
      ParseZoneNameTrgToWly(z);
    }
  }

  /** `ParseZoneName` for the zones JHR01 to KDH07. */
  lemma ParseZoneNameJhrToKdh(z: Zone)
    requires ZoneIndex(z) < 11
    ensures ParseZone(ZoneName(z)) == Some(z)
  {
    match z
    case JHR01 => case JHR02 => case JHR03 => case JHR04 => case KDH01 => case KDH02 =>
    case KDH03 => case KDH04 => case KDH05 => case KDH06 => case KDH07 =>
    case _ =>
  }

  /** `ParseZoneName` for the zones KTN01 to PHGO6. */
  lemma ParseZoneNameKtnToPhg(z: Zone)
    requires 11 <= ZoneIndex(z) < 22
    ensures ParseZone(ZoneName(z)) == Some(z)
  {
    match z
    case KTN01 => case KTN03 => case MLK01 => case NGS01 => case NGS02 => case PHG01 =>
    case PHGO2 => case PHGO3 => case PHGO4 => case PHGO5 => case PHGO6 =>
    case _ =>
  }

  /** `ParseZoneName` for the zones PLS01 to PRK07. */
  lemma ParseZoneNamePlsToPrk(z: Zone)
    requires 22 <= ZoneIndex(z) < 31
    ensures ParseZone(ZoneName(z)) == Some(z)
  {
    match z
    case PLS01 => case PNG01 => case PRK01 => case PRK02 => case PRK03 => case PRK04 =>
    case PRK05 => case PRK06 => case PRK07 =>
    case _ =>
  }

  /** `ParseZoneName` for the zones SBH01 to SBH09. */
  lemma ParseZoneNameSbh(z: Zone)
    requires 31 <= ZoneIndex(z) < 40
    ensures ParseZone(ZoneName(z)) == Some(z)
  {
    match z
    case SBH01 => case SBH02 => case SBH03 => case SBH04 => case SBH05 => case SBH06 =>
    case SBH07 => case SBH08 => case SBH09 =>
    case _ =>
  }

  /** `ParseZoneName` for the zones SGR01 to SWK09. */
  lemma ParseZoneNameSgrToSwk(z: Zone)
    requires 40 <= ZoneIndex(z) < 52
    ensures ParseZone(ZoneName(z)) == Some(z)
  {
    match z
    case SGR01 => case SGR02 => case SGR03 => case SWK01 => case SWK02 => case SWK03 =>
    case SWK04 => case SWK05 => case SWK06 => case SWK07 => case SWK08 => case SWK09 =>
    case _ =>
  }

  /** `ParseZoneName` for the zones TRG01 to WLY02. */
  lemma ParseZoneNameTrgToWly(z: Zone)
    requires 52 <= ZoneIndex(z) < 58
    ensures ParseZone(ZoneName(z)) == Some(z)
  {
    match z
    case TRG01 => case TRG02 => case TRG03 => case TRG04 => case WLY01 => case WLY02 =>
    case _ =>
  }

  /** Only the display string of a zone is read as that zone. */
  lemma ParseZoneOnlyNames(s: string, z: Zone)
    requires ParseZone(s) == Some(z)
    ensures ZoneName(z) == s
  {
    if ZoneIndex(z) < 11 {
      ParseZoneOnlyNamesJhrToKdh(s, z);
    } else if ZoneIndex(z) < 22 {
      ParseZoneOnlyNamesKtnToPhg(s, z);
    } else if ZoneIndex(z) < 31 {
      ParseZoneOnlyNamesPlsToPrk(s, z);
    } else if ZoneIndex(z) < 40 {
      ParseZoneOnlyNamesSbh(s, z);
    } else if ZoneIndex(z) < 52 {
      ParseZoneOnlyNamesSgrToSwk(s, z);
    } else {
      ParseZoneOnlyNamesTrgToWly(s, z);
    }
  }

  /** `ParseZoneOnlyNames` for the zones JHR01 to KDH07. */
  lemma ParseZoneOnlyNamesJhrToKdh(s: string, z: Zone)
    requires ZoneIndex(z) < 11
    requires ParseZone(s) == Some(z)
    ensures ZoneName(z) == s
  {
    match z
    case JHR01 => case JHR02 => case JHR03 => case JHR04 => case KDH01 => case KDH02 =>
    case KDH03 => case KDH04 => case KDH05 => case KDH06 => case KDH07 =>
    case _ =>
  }

  /** `ParseZoneOnlyNames` for the zones KTN01 to PHGO6. */
  lemma ParseZoneOnlyNamesKtnToPhg(s: string, z: Zone)
    requires 11 <= ZoneIndex(z) < 22
    requires ParseZone(s) == Some(z)
    ensures ZoneName(z) == s
  {
    match z
    case KTN01 => case KTN03 => case MLK01 => case NGS01 => case NGS02 => case PHG01 =>
    case PHGO2 => case PHGO3 => case PHGO4 => case PHGO5 => case PHGO6 =>
    case _ =>
  }

  /** `ParseZoneOnlyNames` for the zones PLS01 to PRK07. */
  lemma ParseZoneOnlyNamesPlsToPrk(s: string, z: Zone)
    requires 22 <= ZoneIndex(z) < 31
    requires ParseZone(s) == Some(z)
    ensures ZoneName(z) == s
  {
    match z
    case PLS01 => case PNG01 => case PRK01 => case PRK02 => case PRK03 => case PRK04 =>
    case PRK05 => case PRK06 => case PRK07 =>
    case _ =>
  }

  /** `ParseZoneOnlyNames` for the zones SBH01 to SBH09. */
  lemma ParseZoneOnlyNamesSbh(s: string, z: Zone)
    requires 31 <= ZoneIndex(z) < 40
    requires ParseZone(s) == Some(z)
    ensures ZoneName(z) == s
  {
    match z
    case SBH01 => case SBH02 => case SBH03 => case SBH04 => case SBH05 => case SBH06 =>
    case SBH07 => case SBH08 => case SBH09 =>
    case _ =>
  }

  /** `ParseZoneOnlyNames` for the zones SGR01 to SWK09. */
  lemma ParseZoneOnlyNamesSgrToSwk(s: string, z: Zone)
    requires 40 <= ZoneIndex(z) < 52
    requires ParseZone(s) == Some(z)
    ensures ZoneName(z) == s
  {
    match z
    case SGR01 => case SGR02 => case SGR03 => case SWK01 => case SWK02 => case SWK03 =>
    case SWK04 => case SWK05 => case SWK06 => case SWK07 => case SWK08 => case SWK09 =>
    case _ =>
  }

  /** `ParseZoneOnlyNames` for the zones TRG01 to WLY02. */
  lemma ParseZoneOnlyNamesTrgToWly(s: string, z: Zone)
    requires 52 <= ZoneIndex(z) < 58
    requires ParseZone(s) == Some(z)
    ensures ZoneName(z) == s
  {
    match z
    case TRG01 => case TRG02 => case TRG03 => case TRG04 => case WLY01 => case WLY02 =>
    case _ =>
  }

  /** Different zones display differently. */
  lemma ZoneNamesDistinct(a: Zone, b: Zone)
    ensures ZoneName(a) == ZoneName(b) <==> a == b
  {
    ParseZoneName(a);
    ParseZoneName(b);
  }

  /** The lines of the `list` command: a heading, then every zone code in declaration order. */
  function ZoneListing(): (lines: seq<string>)
    ensures |lines| == ZoneCount + 1 && lines[0] == "Available zones: "
    ensures forall i :: 0 <= i < ZoneCount ==> lines[i + 1] == ZoneName(ZoneAt(i))
    ensures forall z :: ZoneName(z) in lines[1..]
  {
    var names := seq(ZoneCount, i requires 0 <= i < ZoneCount => ZoneName(AllZones()[i]));
    assert forall z :: ZoneName(z) in names by {
      forall z ensures ZoneName(z) in names {
        assert names[ZoneIndex(z)] == ZoneName(z);
      }
    }
    assert (["Available zones: "] + names)[1..] == names;
    ["Available zones: "] + names
  }

  /** The `list` command prints each zone code on exactly one line. */
  lemma ZoneListingHasNoRepeats(i: nat, j: nat)
    requires 1 <= i < j < ZoneCount + 1
    ensures ZoneListing()[i] != ZoneListing()[j]
  {
    var a, b := ZoneAt(i - 1), ZoneAt(j - 1);
    assert ZoneListing()[i] == ZoneName(a) && ZoneListing()[j] == ZoneName(b);
    IndexOfZoneAt(i - 1);
    IndexOfZoneAt(j - 1);
    ZoneNamesDistinct(a, b);
  }
}
