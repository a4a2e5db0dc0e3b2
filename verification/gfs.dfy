/** The GFS weather adapter (`GFSService`): it names the 0.25-degree analysis file of the
    model cycle at or before the requested instant, derives a tile URL for it, and stores
    one weather record. No file is downloaded; the COG URL is a fixed sample per layer. */
module GfsService {
  import opened Wrappers
  import opened Text
  import opened Schema
  import Calendar
  import Uri
  import Storage

  const AwsBaseUrl: string := "https://noaa-gfs-bdp-pds.s3.amazonaws.com"
  const DefaultTiler: string := "http://localhost:8001"
  const GlobalBounds: seq<real> := [-180.0, -90.0, 180.0, 90.0]

  /** The tiler base: the `TITILER_URL` setting, unless it is unset or empty. */
  function TilerBase(setting: Option<string>): (r: string)
    ensures TruthyString(setting) ==> r == setting.value
    ensures !TruthyString(setting) ==> r == DefaultTiler
  {
    StringOr(setting, DefaultTiler)
  }

  /** `formatGFSDate`: the first ten characters of `toISOString()` without dashes. For the
      years 0 to 9999 that is `YYYYMMDD` of the UTC date; beyond, the signed six-digit year
      pushes the day out of the slice. */
  function FormatGfsDate(t: Calendar.TimeValue): (r: string)
    ensures var d := Calendar.UtcDate(t);
            && (0 <= d.year <= 9999 ==>
                  |r| == 8 && AllDigits(r) && DecimalValue(r[..4]) == d.year
                  && DecimalValue(r[4..6]) == d.month && DecimalValue(r[6..]) == d.day)
            && (d.year > 9999 ==>
                  |r| == 9 && r[0] == '+' && AllDigits(r[1..]) && DecimalValue(r[1..7]) == d.year
                  && DecimalValue(r[7..]) == d.month)
            && (d.year < 0 ==>
                  |r| == 8 && AllDigits(r) && DecimalValue(r[..6]) == -d.year && DecimalValue(r[6..]) == d.month)
  {
    var d := Calendar.UtcDate(t);
    var iso := Calendar.IsoDate(d);
    FormatGfsDateSpec(d);
    Calendar.DropDashes(iso[..10])
  }

  lemma FormatGfsDateSpec(d: Calendar.Date)
    requires Calendar.ValidDate(d) && -1000000 < d.year < 1000000
    ensures var r := Calendar.DropDashes(Calendar.IsoDate(d)[..10]);
            && (0 <= d.year <= 9999 ==>
                  |r| == 8 && AllDigits(r) && DecimalValue(r[..4]) == d.year
                  && DecimalValue(r[4..6]) == d.month && DecimalValue(r[6..]) == d.day)
            && (d.year > 9999 ==>
                  |r| == 9 && r[0] == '+' && AllDigits(r[1..]) && DecimalValue(r[1..7]) == d.year
                  && DecimalValue(r[7..]) == d.month)
            && (d.year < 0 ==>
                  |r| == 8 && AllDigits(r) && DecimalValue(r[..6]) == -d.year && DecimalValue(r[6..]) == d.month)
  {
    assert Pow10(2) == 100;
    var y := Calendar.IsoYear(d.year);
    var mm := ZeroPad(d.month, 2);
    var dd := ZeroPad(d.day, 2);
    assert Calendar.IsoDate(d) == y + "-" + mm + "-" + dd;
    if 0 <= d.year <= 9999 {
      FourDigitYear(y, mm, dd);
    } else {
      SignedYear(y[..1], y[1..], mm, dd);
      assert y == y[..1] + y[1..];
    }
  }

  /** `YYYY-MM-DD`, cut to ten characters and without dashes, is `YYYYMMDD`. */
  lemma FourDigitYear(y: string, mm: string, dd: string)
    requires |y| == 4 && |mm| == 2 && |dd| == 2 && AllDigits(y) && AllDigits(mm) && AllDigits(dd)
    ensures var r := Calendar.DropDashes((y + "-" + mm + "-" + dd)[..10]);
            r == y + mm + dd && r[..4] == y && r[4..6] == mm && r[6..] == dd && AllDigits(r)
  {
    assert (y + "-" + mm + "-" + dd)[..10] == y + "-" + mm + "-" + dd;
    Calendar.DropDashesAppend(y + "-" + mm + "-", dd);
    Calendar.DropDashesAppend(y + "-" + mm, "-");
    Calendar.DropDashesAppend(y + "-", mm);
    Calendar.DropDashesAppend(y, "-");
    Calendar.DropDashesDigits(y);
    Calendar.DropDashesDigits(mm);
    Calendar.DropDashesDigits(dd);
    var r := y + mm + dd;
    assert r[..4] == y && r[4..6] == mm && r[6..] == dd;
  }

  /** `±YYYYYY-MM-DD`, cut to ten characters and without dashes, is `YYYYYYMM` after the
      sign: the plus sign stays, the minus sign is removed as a dash. */
  lemma SignedYear(sign: string, digits: string, mm: string, dd: string)
    requires sign == "-" || sign == "+"
    requires |digits| == 6 && |mm| == 2 && |dd| == 2 && AllDigits(digits) && AllDigits(mm)
    ensures var r := Calendar.DropDashes((sign + digits + "-" + mm + "-" + dd)[..10]);
            && (sign == "-" ==> r == digits + mm && r[..6] == digits && r[6..] == mm && AllDigits(r))
            && (sign == "+" ==> r == "+" + digits + mm && r[1..] == digits + mm && r[1..7] == digits && r[7..] == mm)
  {
    assert (sign + digits + "-" + mm + "-" + dd)[..10] == sign + digits + "-" + mm;
    Calendar.DropDashesAppend(sign + digits + "-", mm);
    Calendar.DropDashesAppend(sign + digits, "-");
    Calendar.DropDashesAppend(sign, digits);
    Calendar.DropDashesDigits(digits);
    Calendar.DropDashesDigits(mm);
    if sign == "-" {
      assert Calendar.DropDashes(sign) == [];
      var r := digits + mm;
      assert r[..6] == digits && r[6..] == mm;
    } else {
      assert Calendar.DropDashes(sign) == "+";
      var r := "+" + digits + mm;
      assert r[1..] == digits + mm && r[1..7] == digits && r[7..] == mm;
    }
  }

  /** `getGFSHour`: the model cycle at or before the UTC hour, 00, 06, 12 or 18. */
  function GetGfsHour(t: Calendar.TimeValue): (r: string)
    ensures r == "00" || r == "06" || r == "12" || r == "18"
    ensures AllDigits(r) && DecimalValue(r) <= Calendar.UtcHours(t) < DecimalValue(r) + 6
    ensures DecimalValue(r) % 6 == 0
  {
    var h := Calendar.UtcHours(t);
    CycleHour(h);
    ZeroPad(h / 6 * 6, 2)
  }

  /** The two-digit text of the cycle an hour of the day falls in. */
  lemma CycleHour(h: int)
    requires 0 <= h < 24
    ensures var r := ZeroPad(h / 6 * 6, 2);
            && (r == "00" || r == "06" || r == "12" || r == "18")
            && AllDigits(r) && DecimalValue(r) <= h < DecimalValue(r) + 6 && DecimalValue(r) % 6 == 0
  {
    CycleOf(h);
    CycleText(h / 6 * 6);
  }

  /** The six-hour cycle an hour of the day falls in. */
  lemma CycleOf(h: int)
    requires 0 <= h < 24
    ensures var c := h / 6 * 6;
            && (c == 0 || c == 6 || c == 12 || c == 18)
            && c <= h < c + 6 && c % 6 == 0
  {
    if h < 6 {
      assert h / 6 == 0;
    } else if h < 12 {
      assert h / 6 == 1;
    } else if h < 18 {
      assert h / 6 == 2;
    } else {
      assert h / 6 == 3;
    }
  }

  lemma CycleText(cycle: nat)
    requires cycle == 0 || cycle == 6 || cycle == 12 || cycle == 18
    ensures ZeroPad(cycle, 2) == ["00", "06", "12", "18"][cycle / 6]
  {
    assert Pow10(2) == 100;
    var r := ZeroPad(cycle, 2);
    assert |r| == 2 && DecimalValue(r) == cycle;
    assert DecimalValue(r) == 10 * DigitValue(r[0]) + DigitValue(r[1]) by {
      assert r[..1][..0] == [];
    }
    var expected := ["00", "06", "12", "18"][cycle / 6];
    assert r[0] == expected[0] && r[1] == expected[1];
  }

  const GribStem: string := AwsBaseUrl + "/gfs."

  /** The GRIB2 file of a cycle: `<aws>/gfs.<date>/<hh>/atmos/gfs.t<hh>z.pgrb2.0p25.f000`.
      The date is read back right after the bucket's `gfs.` prefix, the cycle hour right
      after the date, and the file is the analysis (`f000`) of that cycle. */
  function GribUrl(dateStr: string, hour: string): (r: string)
    ensures |r| >= |GribStem| + |dateStr| + 1 + |hour| && r[..|GribStem|] == GribStem
    ensures r[|GribStem|..|GribStem| + |dateStr|] == dateStr
    ensures r[|GribStem| + |dateStr|] == '/'
    ensures r[|GribStem| + |dateStr| + 1..|GribStem| + |dateStr| + 1 + |hour|] == hour
    ensures r[|r| - 5..] == ".f000"
  {
    var file := "/atmos/gfs.t" + hour + "z.pgrb2.0p25.f000";
    var head := GribStem + dateStr + "/";
    assert file[|file| - 5..] == ".f000";
    head + hour + file
  }

  /** Dates and cycle hours of fixed widths name distinct files: two GRIB URLs agree
      exactly when their dates and hours do. */
  lemma GribUrlInjective(d1: string, h1: string, d2: string, h2: string)
    requires |d1| == |d2| && |h1| == |h2|
    ensures GribUrl(d1, h1) == GribUrl(d2, h2) <==> d1 == d2 && h1 == h2
  {
    if GribUrl(d1, h1) == GribUrl(d2, h2) {
      var n := |GribStem|;
      assert d1 == GribUrl(d1, h1)[n..n + |d1|];
      assert h1 == GribUrl(d1, h1)[n + |d1| + 1..n + |d1| + 1 + |h1|];
    }
  }

  /** `convertToCOG`: the placeholder sample raster of the layer; the GRIB URL is unused.
      The layer is read back between the tiler's `/sample-` prefix and the `.tif` suffix. */
  function CogUrl(tiler: string, dataType: string): (r: string)
    ensures |r| == |tiler| + 8 + |dataType| + 4
    ensures r[..|tiler| + 8] == tiler + "/sample-" && r[|r| - 4..] == ".tif"
    ensures r[|tiler| + 8..|r| - 4] == dataType
  {
    var r := tiler + "/sample-" + dataType + ".tif";
    assert r == (tiler + "/sample-") + dataType + ".tif";
    r
  }

  /** On one tiler, each layer has its own COG URL. */
  lemma CogUrlInjective(tiler: string, a: string, b: string)
    ensures CogUrl(tiler, a) == CogUrl(tiler, b) <==> a == b
  {
    if CogUrl(tiler, a) == CogUrl(tiler, b) {
      var r := CogUrl(tiler, a);
      assert a == r[|tiler| + 8..|r| - 4];
    }
  }

  const TilePath: string := "/cog/tiles/WebMercatorQuad/{z}/{x}/{y}.png?url="

  /** The tile template with the COG URL as one encoded query value. */
  function TileUrl(tiler: string, cogUrl: string): (r: string)
    ensures |r| >= |tiler| + |TilePath| && r[..|tiler| + |TilePath|] == tiler + TilePath
    ensures Uri.Decode(r[|tiler| + |TilePath|..]) == Some(cogUrl)
  {
    var r := tiler + TilePath + Uri.Encode(cogUrl);
    assert r[|tiler| + |TilePath|..] == Uri.Encode(cogUrl);
    Uri.DecodeEncode(cogUrl);
    r
  }

  /** The weather record `fetchGFSData` stores for `dataType` at instant `t`. */
  function GfsRecord(dataType: string, t: Calendar.TimeValue, tiler: string): NewWeatherData {
    var dateStr := FormatGfsDate(t);
    var hour := GetGfsHour(t);
    var cog := CogUrl(tiler, dataType);
    NewWeatherData(t, dataType, GlobalBounds, Some(GribUrl(dateStr, hour)), Some(cog),
                   Some(TileUrl(tiler, cog)), Some(GfsMetadata("GFS", "0.25°", 0)))
  }

  /** `fetchGFSData`: exactly one weather record is appended and returned, stamped with the
      requested instant (the clock when none is given), covering the globe, pointing at the
      cycle file of that instant, and with a tile URL that carries the COG URL intact. */
  function FetchGfsData(s: Storage.Store, dataType: string, timestamp: Option<Calendar.TimeValue>,
                        now: Calendar.TimeValue, tilerSetting: Option<string>): (r: (WeatherData, Storage.Store))
    ensures var t := if timestamp.Some? then timestamp.value else now;
            var tiler := TilerBase(tilerSetting);
            && r.1.weather == s.weather + [r.0]
            && r.1.hurricanes == s.hurricanes && r.1.ocean == s.ocean && r.1.nhc == s.nhc
            && r.1.predictions == s.predictions && (Storage.Valid(s) ==> Storage.Valid(r.1))
            && r.0.id == s.nextId && r.0.createdAt == now
            && r.0.timestamp == t && r.0.dataType == dataType && r.0.bounds == GlobalBounds
            && r.0.gribUrl == Some(GribUrl(FormatGfsDate(t), GetGfsHour(t)))
            && r.0.cogUrl == Some(CogUrl(tiler, dataType))
            && r.0.tileUrl == Some(TileUrl(tiler, CogUrl(tiler, dataType)))
            && r.0.metadata == Some(GfsMetadata("GFS", "0.25°", 0))
  {
    var t := if timestamp.Some? then timestamp.value else now;
    var tiler := TilerBase(tilerSetting);
    Storage.CreateWeatherData(s, GfsRecord(dataType, t, tiler), now)
  }

  function FetchTemperature(s: Storage.Store, timestamp: Option<Calendar.TimeValue>, now: Calendar.TimeValue,
                            tilerSetting: Option<string>): (r: (WeatherData, Storage.Store))
    ensures r.1.weather == s.weather + [r.0] && r.0.dataType == "temperature"
    ensures r.0.timestamp == (if timestamp.Some? then timestamp.value else now)
  {
    FetchGfsData(s, "temperature", timestamp, now, tilerSetting)
  }

  function FetchPressure(s: Storage.Store, timestamp: Option<Calendar.TimeValue>, now: Calendar.TimeValue,
                         tilerSetting: Option<string>): (r: (WeatherData, Storage.Store))
    ensures r.1.weather == s.weather + [r.0] && r.0.dataType == "pressure"
    ensures r.0.timestamp == (if timestamp.Some? then timestamp.value else now)
  {
    FetchGfsData(s, "pressure", timestamp, now, tilerSetting)
  }

  function FetchWind(s: Storage.Store, timestamp: Option<Calendar.TimeValue>, now: Calendar.TimeValue,
                     tilerSetting: Option<string>): (r: (WeatherData, Storage.Store))
    ensures r.1.weather == s.weather + [r.0] && r.0.dataType == "wind"
    ensures r.0.timestamp == (if timestamp.Some? then timestamp.value else now)
  {
    FetchGfsData(s, "wind", timestamp, now, tilerSetting)
  }

  /** An instant whose day is a date of the years 0 to 9999 is named by that date's own
      digits: reading the date string back gives the date. */
  lemma DateStringNamesDay(d: Calendar.Date, t: Calendar.TimeValue)
    requires Calendar.ValidDate(d) && 0 <= d.year <= 9999 && t / Calendar.MsPerDay == Calendar.DayNumber(d)
    ensures Calendar.UtcDate(t) == d
    ensures var r := FormatGfsDate(t);
            DecimalValue(r[..4]) == d.year && DecimalValue(r[4..6]) == d.month && DecimalValue(r[6..]) == d.day
  {
    Calendar.DateOfDayNumber(d);
    assert Calendar.UtcDate(t) == d;
  }
}
