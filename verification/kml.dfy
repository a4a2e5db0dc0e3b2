/** The parser of the NHC active-storms KML feed (`KMLParser`): per folder, the
    `tc:` ExtendedData block, the tag values inside it, and the storm record built
    from them. The split of the document into folder bodies is taken as given. */
module KmlParser {
  import opened Wrappers
  import opened Text
  import SaffirSimpson

  const BlockOpen: string := "<ExtendedData"
  const BlockClose: string := "</ExtendedData>"

  /** Six hours in milliseconds: the announced time of the next advisory. */
  const SixHours: int := 6 * 60 * 60 * 1000

  /** The environment the parser reads besides the text: `parseFloat` (`None` standing
      for NaN), `parseDateTime` (which falls back to the clock), and the clock. */
  datatype Env = Env(parseFloat: string -> Option<real>, parseDateTime: Option<string> -> int, now: int)

  /** One storm as the parser emits it, with the raw texts it was read from. */
  datatype KmlStorm = KmlStorm(
    name: string,
    atcfId: Option<string>,
    category: string,
    windSpeed: nat,
    pressure: nat,
    latitude: real,
    longitude: real,
    movement: string,
    lastUpdate: int,
    nextUpdate: int,
    isActive: bool,
    stormType: Option<string>,
    rawDateTime: Option<string>,
    rawPressure: Option<string>,
    rawWindSpeed: Option<string>,
    rawMovement: Option<string>)

  // ---------------------------------------------------------------------------
  // The tc ExtendedData block
  // ---------------------------------------------------------------------------

  /** `b` sits in `f` at offset `a`, right after a `>` and right before `</ExtendedData>`,
      and holds no `</ExtendedData>` itself. */
  predicate BlockAt(f: string, b: string, a: int) {
    && 0 < a && a + |b| <= |f| && f[a..a + |b|] == b && f[a - 1] == '>'
    && OccursAt(f, BlockClose, a + |b|)
    && !Contains(b, BlockClose)
  }

  /** `<ExtendedData[^>]*tc[^>]*>` matches at `p` and ends at `e`: the opening tag's
      text, up to the first `>` after the tag name, mentions `tc`. */
  predicate TcOpening(f: string, p: int, e: int) {
    && OccursAt(f, BlockOpen, p)
    && p + |BlockOpen| <= e && OccursAt(f, ">", e)
    && (forall k :: p + |BlockOpen| <= k < e ==> !OccursAt(f, ">", k))
    && Contains(f[p + |BlockOpen|..e], "tc")
  }

  /** The whole pattern matches from `p`: a `tc` opening tag ending at `e`, and a closing
      tag at `c` somewhere after it. */
  predicate TcMatch(f: string, p: int, e: int, c: int) {
    TcOpening(f, p, e) && e < c && OccursAt(f, BlockClose, c)
  }

  /** `r` is what the pattern yields on `f` when the match must start at `from` or
      later: nothing exactly when no match starts there; otherwise the text between the
      leftmost match's opening tag and the nearest closing tag after it. */
  ghost predicate LeftmostMatch(f: string, from: int, r: Option<string>) {
    && (r.None? <==> forall p, e, c :: from <= p ==> !TcMatch(f, p, e, c))
    && (r.Some? ==> exists p, e, c ::
          && from <= p && TcMatch(f, p, e, c) && r.value == f[e + 1..c]
          && (forall k :: e < k < c ==> !OccursAt(f, BlockClose, k))
          && (forall q, e', c' :: from <= q && TcMatch(f, q, e', c') ==> p <= q))
  }

  /** `/<ExtendedData[^>]*tc[^>]*>([\s\S]*?)<\/ExtendedData>/`: the leftmost
      `<ExtendedData` whose opening tag mentions `tc`, up to the nearest closing tag. */
  function TcBlock(f: string): (r: Option<string>)
    ensures r.Some? ==> exists a :: BlockAt(f, r.value, a)
    ensures LeftmostMatch(f, 0, r)
  {
    TcBlockFrom(f, 0)
  }

  /** The same search, with the match starting at `from` or later. */
  function TcBlockFrom(f: string, from: nat): (r: Option<string>)
    ensures r.Some? ==> exists a :: BlockAt(f, r.value, a)
    ensures LeftmostMatch(f, from, r)
    decreases |f| - from
  {
    match IndexOf(f, BlockOpen, from)
    case None => None
    case Some(p) =>
      match IndexOf(f, ">", p + |BlockOpen|)
      case None =>
        NoMatchBeyond(f, from, p, |f|);
        None
      case Some(e) =>
        if Contains(f[p + |BlockOpen|..e], "tc") then
          match IndexOf(f, BlockClose, e + 1)
          case None =>
            NoMatchBeyond(f, from, p, e);
            None
          case Some(c) =>
            FoundMatch(f, from, p, e, c);
            Some(f[e + 1..c])
        else
          var r := TcBlockFrom(f, p + 1);
          NotTcOpening(f, from, p, e, r);
          r
  }

  /** With `p` the first opening from `from` and no `>` in `[p + |BlockOpen|, e)`, a match
      needs a `>` at or after `e` and a closing tag beyond it; when no closing tag follows
      `e`, nothing matches from `from`. */
  lemma NoMatchBeyond(f: string, from: nat, p: nat, e: nat)
    requires IndexOf(f, BlockOpen, from) == Some(p)
    requires forall k :: p + |BlockOpen| <= k < e ==> !OccursAt(f, ">", k)
    requires forall k :: e < k ==> !OccursAt(f, BlockClose, k)
    ensures LeftmostMatch(f, from, None)
  {
  }

  /** The first opening from `from` mentions `tc` and a closing tag follows it: that is
      the leftmost match, and the nearest closing tag ends it. */
  lemma FoundMatch(f: string, from: nat, p: nat, e: nat, c: nat)
    requires IndexOf(f, BlockOpen, from) == Some(p)
    requires IndexOf(f, ">", p + |BlockOpen|) == Some(e)
    requires Contains(f[p + |BlockOpen|..e], "tc")
    requires IndexOf(f, BlockClose, e + 1) == Some(c)
    ensures BlockAt(f, f[e + 1..c], e + 1)
    ensures LeftmostMatch(f, from, Some(f[e + 1..c]))
  {
    assert f[e] == ">"[0] by { assert f[e..e + 1] == ">"; }
    NoCloseInside(f, f[e + 1..c], e + 1, c);
    assert TcMatch(f, p, e, c);
  }

  /** An opening whose tag does not mention `tc` starts no match, so the search may
      resume one character after it. */
  lemma NotTcOpening(f: string, from: nat, p: nat, e: nat, r: Option<string>)
    requires IndexOf(f, BlockOpen, from) == Some(p)
    requires IndexOf(f, ">", p + |BlockOpen|) == Some(e)
    requires !Contains(f[p + |BlockOpen|..e], "tc")
    requires LeftmostMatch(f, p + 1, r)
    ensures LeftmostMatch(f, from, r)
  {
    assert forall q, e', c' :: from <= q <= p ==> !TcMatch(f, q, e', c');
  }

  /** The nearest closing tag after `a` is at `c`: the text in between holds none. */
  lemma NoCloseInside(f: string, b: string, a: int, c: int)
    requires 0 <= a <= c <= |f| && b == f[a..c]
    requires forall j :: a <= j < c ==> !OccursAt(f, BlockClose, j)
    ensures !Contains(b, BlockClose)
  {
    forall i | 0 <= i && i + |BlockClose| <= |b|
      ensures !OccursAt(b, BlockClose, i)
    {
      var n := |BlockClose|;
      assert !OccursAt(f, BlockClose, a + i);
      SliceOfSlice(f, a, c, i, i + n);
    }
  }

  lemma SliceOfSlice(f: string, a: int, c: int, i: int, j: int)
    requires 0 <= a <= c <= |f| && 0 <= i <= j <= c - a
    ensures f[a..c][i..j] == f[a + i..a + j]
  {
    var x, y := f[a..c][i..j], f[a + i..a + j];
    forall k | 0 <= k < |x|
      ensures x[k] == y[k]
    {
      assert x[k] == f[a + i + k];
    }
  }

  // ---------------------------------------------------------------------------
  // Tag values
  // ---------------------------------------------------------------------------

  function OpenTag(tag: string): string { "<" + tag + ">" }
  function CloseTag(tag: string): string { "</" + tag + ">" }

  /** The first `open` in `text` is at `i`, and the nearest `close` after it at `j`. */
  predicate FirstPair(text: string, open: string, close: string, i: int, j: int) {
    && OccursAt(text, open, i) && (forall k :: 0 <= k < i ==> !OccursAt(text, open, k))
    && i + |open| <= j && OccursAt(text, close, j)
    && (forall k :: i + |open| <= k < j ==> !OccursAt(text, close, k))
  }

  /** `text.match(new RegExp(`<${tag}>(.*?)</${tag}>`, 's'))?.[1].trim()`: nothing when
      no opening tag is followed by a closing one; otherwise the trimmed text between
      the first opening tag and the nearest closing tag after it. */
  function ExtractValue(text: string, tag: string): (r: Option<string>)
    ensures r.None? <==> forall i, j :: OccursAt(text, OpenTag(tag), i) && OccursAt(text, CloseTag(tag), j)
                                        ==> j < i + |OpenTag(tag)|
    ensures r.Some? ==> exists i, j :: FirstPair(text, OpenTag(tag), CloseTag(tag), i, j)
                                       && r.value == Trim(text[i + |OpenTag(tag)|..j])
  {
    var open, close := OpenTag(tag), CloseTag(tag);
    match IndexOf(text, open, 0)
    case None => None
    case Some(i) =>
      match IndexOf(text, close, i + |open|)
      case None =>
        NoPair(text, open, close, i);
        None
      case Some(j) =>
        assert FirstPair(text, open, close, i, j);
        Some(Trim(text[i + |open|..j]))
  }

  /** When the first opening tag has no closing tag after it, no opening tag has one. */
  lemma NoPair(text: string, open: string, close: string, i: int)
    requires forall k :: 0 <= k < i ==> !OccursAt(text, open, k)
    requires forall j :: i + |open| <= j ==> !OccursAt(text, close, j)
    ensures forall i', j :: OccursAt(text, open, i') && OccursAt(text, close, j) ==> j < i' + |open|
  {
    forall i', j | OccursAt(text, open, i') && OccursAt(text, close, j)
      ensures j < i' + |open|
    {
    }
  }

  // ---------------------------------------------------------------------------
  // Numeric fields and names
  // ---------------------------------------------------------------------------

  /** `parseInt(v?.replace(/[^\d]/g, '') || '0')`: the digits of the field read as one
      decimal number; 0 when the field is missing or has no digits. */
  function IntField(v: Option<string>): (n: nat)
    ensures v.None? ==> n == 0
    ensures v.Some? ==> n == DecimalValue(Digits(v.value))
  {
    var d := if v.Some? then Digits(v.value) else "";
    if d == "" then 0 else DecimalValue(d)
  }

  /** A number written between text without digits (`"105 mph"`) reads back as itself. */
  lemma IntFieldReadsNumber(pre: string, n: nat, post: string)
    requires Digits(pre) == [] && Digits(post) == []
    ensures IntField(Some(pre + NatToString(n) + post)) == n
  {
    var s := NatToString(n);
    DigitsAppend(pre + s, post);
    DigitsAppend(pre, s);
    DigitsOfDigits(s);
    assert Digits(pre + s + post) == s;
    DecimalRoundTrip(n);
  }

  /** `parseFloat(v || '0')`: a missing or empty field reads as 0 without parsing. */
  function FloatField(v: Option<string>, parseFloat: string -> Option<real>): (r: Option<real>)
    ensures !TruthyString(v) ==> r == Some(0.0)
    ensures TruthyString(v) ==> r == parseFloat(v.value)
  {
    if TruthyString(v) then parseFloat(v.value) else Some(0.0)
  }

  /** The name prefix a storm type selects. */
  function TypePrefix(stormType: Option<string>): (p: string)
    ensures stormType == Some("HU") <==> p == "Hurricane"
    ensures stormType == Some("TS") <==> p == "Tropical Storm"
    ensures stormType != Some("HU") && stormType != Some("TS") <==> p == "Tropical Depression"
  {
    if stormType == Some("HU") then "Hurricane"
    else if stormType == Some("TS") then "Tropical Storm"
    else "Tropical Depression"
  }

  /** The display name: the type prefix, a space, then `tc:name`; the storm name can be read back. */
  function DisplayName(stormType: Option<string>, name: string): (r: string)
    ensures var p := TypePrefix(stormType); |r| == |p| + 1 + |name| && r[..|p|] == p && r[|p|] == ' '
    ensures r[|r| - |name|..] == name
  {
    TypePrefix(stormType) + " " + name
  }

  /** `categorizeByWind`: the Saffir-Simpson band of the wind speed. */
  function CategorizeByWind(w: real): (r: string)
    ensures r == SaffirSimpson.Category(w)
  {
    SaffirSimpson.BandValue(w);
    if w >= 157.0 then "Category 5 Hurricane"
    else if w >= 130.0 then "Category 4 Hurricane"
    else if w >= 111.0 then "Category 3 Hurricane"
    else if w >= 96.0 then "Category 2 Hurricane"
    else if w >= 74.0 then "Category 1 Hurricane"
    else if w >= 39.0 then "Tropical Storm"
    else "Tropical Depression"
  }

  // ---------------------------------------------------------------------------
  // Records
  // ---------------------------------------------------------------------------

  /** The value of tag `tag` in the folder's tc block, if both exist. */
  /** `extractValue(tcBlock, tag)`: nothing without a tc block; otherwise the trimmed text of
      the block's first `<tag>…</tag>` pair, and nothing when the block has no such pair. */
  function Field(folder: string, tag: string): (r: Option<string>)
    ensures r.Some? ==> TcBlock(folder).Some?
    ensures TcBlock(folder).Some? ==>
              var b := TcBlock(folder).value;
              && (r.None? <==> forall i, j :: OccursAt(b, OpenTag(tag), i) && OccursAt(b, CloseTag(tag), j)
                                              ==> j < i + |OpenTag(tag)|)
              && (r.Some? ==> exists i, j :: FirstPair(b, OpenTag(tag), CloseTag(tag), i, j)
                                             && r.value == Trim(b[i + |OpenTag(tag)|..j]))
  {
    match TcBlock(folder)
    case None => None
    case Some(b) => ExtractValue(b, tag)
  }

  /** The record one folder yields (`parseNHCActiveData`'s loop body): nothing without a tc
      block; otherwise, when it yields a storm, an active one categorised by its wind, off
      the zero meridian and equator, and due six hours after the clock. */
  function ParseFolder(folder: string, env: Env): (r: Option<KmlStorm>)
    ensures TcBlock(folder).None? ==> r.None?
    ensures r.Some? ==> && r.value.isActive && r.value.category == SaffirSimpson.Category(r.value.windSpeed as real)
                        && r.value.latitude != 0.0 && r.value.longitude != 0.0
                        && r.value.nextUpdate == env.now + SixHours
  {
    match TcBlock(folder)
    case None => None
    case Some(tc) =>
      var name := ExtractValue(tc, "tc:name");
      var stormType := ExtractValue(tc, "tc:type");
      var lat := FloatField(ExtractValue(tc, "tc:centerLat"), env.parseFloat);
      var lon := FloatField(ExtractValue(tc, "tc:centerLon"), env.parseFloat);
      var dateTime := ExtractValue(tc, "tc:dateTime");
      var movement := ExtractValue(tc, "tc:movement");
      var pressure := ExtractValue(tc, "tc:minimumPressure");
      var windSpeed := ExtractValue(tc, "tc:maxSustainedWind");
      var atcfId := ExtractValue(tc, "tc:atcfID");
      if TruthyString(name) && TruthyNumber(lat) && TruthyNumber(lon) then
        Some(KmlStorm(
          DisplayName(stormType, name.value), atcfId,
          CategorizeByWind(IntField(windSpeed) as real),
          IntField(windSpeed), IntField(pressure),
          lat.value, lon.value,
          StringOr(movement, "Unknown"),
          env.parseDateTime(dateTime), env.now + SixHours,
          true, stormType, dateTime, pressure, windSpeed, movement))
      else None
  }

  /** A folder yields no record without a tc block, with an empty name, or with a latitude
      or longitude that reads as 0 or NaN; otherwise an active storm whose category is the
      band of its wind speed and whose movement falls back to "Unknown". */
  lemma ParseFolderSpec(folder: string, env: Env)
    ensures ParseFolder(folder, env).None? <==>
              || TcBlock(folder).None?
              || !TruthyString(Field(folder, "tc:name"))
              || !TruthyNumber(FloatField(Field(folder, "tc:centerLat"), env.parseFloat))
              || !TruthyNumber(FloatField(Field(folder, "tc:centerLon"), env.parseFloat))
    ensures ParseFolder(folder, env).Some? ==>
              var r := ParseFolder(folder, env).value;
              && r.isActive
              && r.name == DisplayName(Field(folder, "tc:type"), Field(folder, "tc:name").value)
              && r.windSpeed == IntField(Field(folder, "tc:maxSustainedWind"))
              && r.pressure == IntField(Field(folder, "tc:minimumPressure"))
              && r.category == SaffirSimpson.Category(r.windSpeed as real)
              && r.latitude != 0.0 && r.longitude != 0.0
              && r.movement == StringOr(Field(folder, "tc:movement"), "Unknown")
              && r.movement != ""
              && r.nextUpdate == env.now + SixHours
  {
  }

  /** The folder parser for one environment, as a value. */
  function Parser(env: Env): string -> Option<KmlStorm> {
    folder => ParseFolder(folder, env)
  }

  /** The present results of `f` over `xs`, in order: at most one per item. */
  function Collect<A, B>(xs: seq<A>, f: A -> Option<B>): (r: seq<B>)
    ensures |r| <= |xs|
  {
    if xs == [] then []
    else (match f(xs[0]) case None => [] case Some(b) => [b]) + Collect(xs[1..], f)
  }

  /** An item is collected iff `f` yields it for some element. */
  lemma {:induction false} CollectMembers<A, B>(xs: seq<A>, f: A -> Option<B>, b: B)
    ensures b in Collect(xs, f) <==> exists i :: 0 <= i < |xs| && f(xs[i]) == Some(b)
  {
    if xs != [] {
      CollectMembers(xs[1..], f, b);
      if exists i :: 0 <= i < |xs| && f(xs[i]) == Some(b) {
        var i :| 0 <= i < |xs| && f(xs[i]) == Some(b);
        if i > 0 {
          assert xs[1..][i - 1] == xs[i];
        }
      }
    }
  }

  /** Collecting a concatenation concatenates the collections. */
  lemma {:induction false} CollectAppend<A, B>(a: seq<A>, b: seq<A>, f: A -> Option<B>)
    ensures Collect(a + b, f) == Collect(a, f) + Collect(b, f)
  {
    if a == [] {
      assert a + b == b;
    } else {
      assert (a + b)[0] == a[0] && (a + b)[1..] == a[1..] + b;
      CollectAppend(a[1..], b, f);
    }
  }

  /** Every collected storm is active and categorised by its wind. */
  lemma CollectedActive(folders: seq<string>, env: Env)
    ensures forall s :: s in Collect(folders, Parser(env)) ==>
              s.isActive && s.category == SaffirSimpson.Category(s.windSpeed as real)
  {
    forall s | s in Collect(folders, Parser(env))
      ensures s.isActive && s.category == SaffirSimpson.Category(s.windSpeed as real)
    {
      CollectMembers(folders, Parser(env), s);
      var i :| 0 <= i < |folders| && Parser(env)(folders[i]) == Some(s);
      ParseFolderSpec(folders[i], env);
    }
  }

  /** `parseNHCActiveData` over the folder bodies: the loop keeps each folder's record in
      document order, so there is at most one storm per folder, each active and
      categorised by its own wind. */
  function ParseNhcActiveData(folders: seq<string>, env: Env): (r: seq<KmlStorm>)
    ensures |r| <= |folders|
    ensures forall s :: s in r ==> s.isActive && s.category == SaffirSimpson.Category(s.windSpeed as real)
  {
    CollectedActive(folders, env);
    Collect(folders, Parser(env))
  }

  /** Records come out in folder order: parsing a concatenation concatenates the results. */
  lemma ParseAppend(a: seq<string>, b: seq<string>, env: Env)
    ensures ParseNhcActiveData(a + b, env) == ParseNhcActiveData(a, env) + ParseNhcActiveData(b, env)
  {
    CollectAppend(a, b, Parser(env));
  }

  /** A storm is emitted iff some folder yields it. */
  lemma ParseMembers(folders: seq<string>, env: Env, s: KmlStorm)
    ensures s in ParseNhcActiveData(folders, env) <==>
              exists i :: 0 <= i < |folders| && ParseFolder(folders[i], env) == Some(s)
  {
    CollectMembers(folders, Parser(env), s);
  }
}
