/**
 * `getResourceStockImage`: the stock photograph shown for a resource without
 * an uploaded image. A named resource whose name contains a known key gets
 * that key's photograph; otherwise the photograph of its type, or of `other`.
 * The `w=<digits>&h=<digits>` part of the URL is then rewritten to the
 * requested size.
 */
module ResourceImages {
  import opened Common
  import opened Strings

  // ---------------------------------------------------------------- tables

  /** The common start of every stock URL. */
  const PHOTO_PREFIX := "https://images.unsplash.com/photo-"

  /** The query every table URL carries after its size parameters. */
  const QUERY_TAIL := "&fit=crop&q=80"

  /** A stock URL for photograph `id` with width `w` and height `h`. */
  function SizedUrl(id: string, w: string, h: string): string {
    PHOTO_PREFIX + id + "?" + SizeParam((w, h)) + QUERY_TAIL
  }

  /** Each table URL: the photograph `id` at 1200 by 800. */
  function StockUrl(id: string): string {
    SizedUrl(id, "1200", "800")
  }

  /** Photograph ids are hexadecimal groups joined by dashes. */
  predicate PhotoId(id: string) {
    forall i :: 0 <= i < |id| ==> id[i] == '-' || IsDigit(id[i]) || 'a' <= id[i] <= 'f'
  }

  /** `NAMED_RESOURCE_IMAGES`: key and photograph id, in declaration order (the order `Object.entries` yields). */
  const NAMED_RESOURCE_IMAGES: seq<(string, string)> := [
    ("luddy ai lab", "1677442136019-21780ecad995"),
    ("vr/ar studio", "1622979135225-d2ba269cf1ac"),
    ("wright computer lab", "1547658719-da2b51169166"),
    ("msb-ii molecular biology lab", "1582719471384-894fbb16e074"),
    ("microscopy station", "1530497610245-94d3c16cda28"),
    ("spectroscopy instrument", "1581093588401-fbb62a02f120"),
    ("wells library study room", "1481627834876-b7833e8f5570"),
    ("wells library quiet pod", "1618609378039-b572f64c5b42"),
    ("luddy collaboration pod", "1497366216548-37526070297c"),
    ("kelley collaboration room", "1497366811353-6870744d04b2"),
    ("kelley team study pod", "1542744173-8e7e53415bb0"),
    ("kelley interview room", "1573497019940-1c28c88b4f3e"),
    ("imu solarium", "1511578314322-379afb476865"),
    ("imu georgian room", "1519167758481-83f29da8c2b5"),
    ("imu student org meeting room", "1556761175-4b46a572b786"),
    ("neal-marshall multipurpose", "1540575467063-178a50c2df87"),
    ("cultural library study room", "1521587760476-6c12a4b040da"),
    ("media presentation lounge", "1531482615713-2afd69097998"),
    ("srsc basketball court", "1546519638-68e109498ffc"),
    ("indoor track", "1461896836934-ffe607ba8211"),
    ("music practice room", "1520523839897-bd0b52f945a0"),
    ("recording studio", "1598488035139-bdbb2231ce04"),
    ("music rehearsal hall", "1507838153414-b4b713384a76"),
    ("wright seminar room", "1562774053-701939374585"),
    ("projector", "1531482615713-2afd69097998"),
    ("laptop", "1496181133206-80ce9b88a853"),
    ("video camera", "1502920917128-1aa500764cbd"),
    ("podcast recording kit", "1589903308904-1010c2294adc"),
    ("portable whiteboard", "1606326608606-aa0b62935f2b")
  ]

  /** `RESOURCE_STOCK_IMAGES`: type and photograph id. */
  const RESOURCE_STOCK_IMAGES: map<string, string> := map[
    "room" := "1497366216548-37526070297c",
    "equipment" := "1519389950473-47ba0277781c",
    "lab" := "1532187863486-abf9dbad1b69",
    "facility" := "1486406146926-c627a92ad1ab",
    "space" := "1497366811353-6870744d04b2",
    "other" := "1497366754035-f200968a6e72"
  ]

  /** `sizeParams`: each size's width and height, the text `w=<width>&h=<height>`. */
  const SIZE_PARAMS: map<string, (string, string)> := map[
    "thumb" := ("400", "250"),
    "medium" := ("800", "600"),
    "large" := ("1200", "800")
  ]

  function SizeParam(d: (string, string)): string {
    "w=" + d.0 + "&h=" + d.1
  }

  // ---------------------------------------------------------------- arguments

  /** `(resourceType || 'other').toLowerCase().trim()`. */
  function TypeKey(resourceType: Option<string>): string {
    Trim(Lower(OrStr(resourceType, "other")))
  }

  /** `(resourceName || '').toLowerCase().trim()`. */
  function NameKey(resourceName: Option<string>): string {
    Trim(Lower(OrStr(resourceName, "")))
  }

  /** `size = 'large'`: an omitted size is the large one. */
  function SizeKey(size: Option<string>): string {
    size.GetOr("large")
  }

  // ---------------------------------------------------------------- choosing the photograph

  /** The index of the first entry whose key occurs in `name`, if any. */
  function NamedMatch(name: string, entries: seq<(string, string)>): (r: Option<nat>)
    ensures r.Some? ==> r.value < |entries| && Contains(name, entries[r.value].0)
    ensures r.Some? ==> forall j :: 0 <= j < r.value ==> !Contains(name, entries[j].0)
    ensures r.None? <==> forall j :: 0 <= j < |entries| ==> !Contains(name, entries[j].0)
  {
    if |entries| == 0 then None
    else if Contains(name, entries[0].0) then Some(0)
    else
      var rest := NamedMatch(name, entries[1..]);
      if rest.Some? then Some(rest.value + 1) else None
  }

  /** The two tables the choice reads. */
  datatype Tables = Tables(named: seq<(string, string)>, stock: map<string, string>)

  const TABLES := Tables(NAMED_RESOURCE_IMAGES, RESOURCE_STOCK_IMAGES)

  /** The photograph chosen before resizing: a name match first, then the type, then `other`. */
  function ChosenId(t: Tables, typeKey: string, nameKey: string): string
    requires "other" in t.stock
  {
    var m := NamedMatch(nameKey, t.named);
    if nameKey != "" && m.Some? then t.named[m.value].1
    else if typeKey in t.stock then t.stock[typeKey]
    else t.stock["other"]
  }

  /** Every photograph id of both tables. */
  function TableIds(t: Tables): set<string> {
    (set e | e in t.named :: e.1) + t.stock.Values
  }

  // ---------------------------------------------------------------- the size rewrite

  /** The length of the run of digits starting at `j`. */
  function DigitRun(s: string, j: nat): (n: nat)
    requires j <= |s|
    ensures j + n <= |s|
    decreases |s| - j
  {
    if j < |s| && IsDigit(s[j]) then 1 + DigitRun(s, j + 1) else 0
  }

  /** Where a match of `w=\d+&h=\d+` starting at `i` ends, if one does; both runs of digits are taken whole. */
  function MatchEnd(s: string, i: nat): (r: Option<nat>)
    requires i <= |s|
    ensures r.Some? ==> i + 7 <= r.value <= |s|
  {
    if i + 2 <= |s| && s[i] == 'w' && s[i + 1] == '=' then
      var a := i + 2 + DigitRun(s, i + 2);
      if a > i + 2 && a + 3 <= |s| && s[a] == '&' && s[a + 1] == 'h' && s[a + 2] == '=' then
        var b := a + 3 + DigitRun(s, a + 3);
        if b > a + 3 then Some(b) else None
      else None
    else None
  }

  /** The leftmost match of `w=\d+&h=\d+` from position `i` on, as its start and end. */
  function FirstSizeMatch(s: string, i: nat): (r: Option<(nat, nat)>)
    requires i <= |s|
    ensures r.Some? ==> i <= r.value.0 <= |s| && MatchEnd(s, r.value.0) == Some(r.value.1)
    decreases |s| - i
  {
    var m := MatchEnd(s, i);
    if m.Some? then Some((i, m.value))
    else if i == |s| then None
    else FirstSizeMatch(s, i + 1)
  }

  /** The size rewrite: a known size replaces the first `w=..&h=..`; anything else leaves the URL as it is. */
  function Resize(url: string, size: string): string {
    var m := FirstSizeMatch(url, 0);
    if m.Some? && size in SIZE_PARAMS then
      url[..m.value.0] + SizeParam(SIZE_PARAMS[size]) + url[m.value.1..]
    else url
  }

  // ---------------------------------------------------------------- the operation

  /** The name loop: the first key, in table order, that occurs in the name. */
  method FindNamed(name: string, entries: seq<(string, string)>) returns (found: Option<nat>)
    ensures found == NamedMatch(name, entries)
  {
    found := None;
    var i := 0;
    while i < |entries|
      invariant 0 <= i <= |entries|
      invariant forall j :: 0 <= j < i ==> !Contains(name, entries[j].0)
    {
      if Contains(name, entries[i].0) {
        found := Some(i);
        break;
      }
      i := i + 1;
    }
  }

  /** The size rewrite applied to one URL. */
  method ApplySize(url: string, size: string) returns (r: string)
    ensures r == Resize(url, size)
  {
    r := url;
    var currentSize := FirstSizeMatch(url, 0);
    if currentSize.Some? && size in SIZE_PARAMS {
      r := url[..currentSize.value.0] + SizeParam(SIZE_PARAMS[size]) + url[currentSize.value.1..];
    }
  }

  /** `getResourceStockImage(resourceType, resourceName, size)`. */
  method GetResourceStockImage(resourceType: Option<string>, resourceName: Option<string>, size: Option<string>)
    returns (imageUrl: string)
    ensures imageUrl == Resize(StockUrl(ChosenId(TABLES, TypeKey(resourceType), NameKey(resourceName))), SizeKey(size))
  {
    var normalizedType := TypeKey(resourceType);
    var normalizedName := NameKey(resourceName);
    var found: Option<nat> := None;
    if normalizedName != "" {
      found := FindNamed(normalizedName, NAMED_RESOURCE_IMAGES);
    }
    var id;
    if found.Some? {
      id := NAMED_RESOURCE_IMAGES[found.value].1;
    } else if normalizedType in RESOURCE_STOCK_IMAGES {
      id := RESOURCE_STOCK_IMAGES[normalizedType];
    } else {
      id := RESOURCE_STOCK_IMAGES["other"];
    }
    assert id == ChosenId(TABLES, normalizedType, normalizedName);
    imageUrl := ApplySize(StockUrl(id), SizeKey(size));
  }

  // ---------------------------------------------------------------- properties of the choice

  /** A name that contains a key gets the first such key's photograph, whatever the type. */
  lemma NameBeatsType(t: Tables, typeKey: string, nameKey: string, k: nat)
    requires "other" in t.stock
    requires nameKey != "" && k < |t.named|
    requires Contains(nameKey, t.named[k].0)
    requires forall j :: 0 <= j < k ==> !Contains(nameKey, t.named[j].0)
    ensures ChosenId(t, typeKey, nameKey) == t.named[k].1
  {
    var m := NamedMatch(nameKey, t.named);
    assert m.Some?;
    if m.value < k {
    } else if m.value > k {
    }
  }

  /** With no name, or a name containing no key, a known type gets its photograph and any other type that of `other`. */
  lemma TypeFallback(t: Tables, typeKey: string, nameKey: string)
    requires "other" in t.stock
    requires nameKey == "" || forall j :: 0 <= j < |t.named| ==> !Contains(nameKey, t.named[j].0)
    ensures typeKey in t.stock ==> ChosenId(t, typeKey, nameKey) == t.stock[typeKey]
    ensures typeKey !in t.stock ==> ChosenId(t, typeKey, nameKey) == ChosenId(t, "other", nameKey)
  {
  }

  /** The chosen photograph is always one of the tables' (the URL is never null or undefined). */
  lemma ChosenInTables(t: Tables, typeKey: string, nameKey: string)
    requires "other" in t.stock
    ensures ChosenId(t, typeKey, nameKey) in TableIds(t)
  {
    var m := NamedMatch(nameKey, t.named);
    if nameKey != "" && m.Some? {
      assert t.named[m.value] in t.named;
    } else if typeKey in t.stock {
      assert t.stock[typeKey] in t.stock.Values;
    } else {
      assert t.stock["other"] in t.stock.Values;
    }
  }

  lemma TablesHaveOther()
    ensures "other" in TABLES.stock
  {
  }

  // ---------------------------------------------------------------- properties of the size rewrite

  predicate AllDigits(d: string) {
    forall i :: 0 <= i < |d| ==> IsDigit(d[i])
  }

  /** A size outside the table leaves the URL as it is. */
  lemma UnknownSizeUnchanged(url: string, size: string)
    requires size !in SIZE_PARAMS
    ensures Resize(url, size) == url
  {
  }

  lemma {:induction false} DigitRunIs(s: string, j: nat, d: string)
    requires j + |d| <= |s| && s[j..j + |d|] == d && AllDigits(d)
    requires j + |d| == |s| || !IsDigit(s[j + |d|])
    ensures DigitRun(s, j) == |d|
    decreases |d|
  {
    if |d| > 0 {
      assert s[j] == d[0];
      assert s[j + 1..j + |d|] == d[1..];
      DigitRunIs(s, j + 1, d[1..]);
    }
  }

  lemma PrefixHasNoW()
    ensures 'w' !in PHOTO_PREFIX
  {
  }

  lemma TailStartsWithAmpersand()
    ensures QUERY_TAIL != "" && !IsDigit(QUERY_TAIL[0])
  {
  }

  /** A photograph id never contains `w`. */
  lemma PhotoIdHasNoW(id: string)
    requires PhotoId(id)
    ensures 'w' !in id
  {
  }

  predicate Dimensions(d: (string, string)) {
    d.0 != "" && d.1 != "" && AllDigits(d.0) && AllDigits(d.1)
  }

  /** The layout of `head?w=<w>&h=<h>tail`, position by position. */
  predicate Layout(url: string, head: string, d: (string, string), tail: string) {
    var p := |head| + 1;
    var a := p + 2 + |d.0|;
    var e := a + 3 + |d.1|;
    |url| == e + |tail| && url[..p] == head + "?" && url[e..] == tail &&
    (forall j :: 0 <= j < |head| ==> url[j] == head[j]) && url[|head|] == '?' &&
    url[p] == 'w' && url[p + 1] == '=' && url[p + 2..a] == d.0 &&
    url[a] == '&' && url[a + 1] == 'h' && url[a + 2] == '=' && url[a + 3..e] == d.1 &&
    (tail != "" ==> url[e] == tail[0])
  }

  lemma QueryLayout(head: string, d: (string, string), tail: string)
    ensures Layout(head + "?" + SizeParam(d) + tail, head, d, tail)
  {
    var url := head + "?" + SizeParam(d) + tail;
    var p := |head| + 1;
    assert url == (head + "?") + SizeParam(d) + tail;
    assert url[p..p + |SizeParam(d)|] == SizeParam(d);
  }

  /** Nothing before the `?` can start a match when the text before it has no `w`. */
  lemma NoMatchBeforeQuery(url: string, head: string)
    requires |head| < |url| && url[|head|] == '?' && 'w' !in head
    requires forall j :: 0 <= j < |head| ==> url[j] == head[j]
    ensures forall j :: 0 <= j <= |head| ==> MatchEnd(url, j).None?
  {
    forall j | 0 <= j <= |head|
      ensures MatchEnd(url, j).None?
    {
      if j < |head| {
        assert url[j] == head[j];
      }
    }
  }

  /** `w=<w>&h=<h>` at `p`, followed by no digit, is a match ending after `h`. */
  lemma MatchAtIs(url: string, p: nat, d: (string, string))
    requires Dimensions(d)
    requires p + 5 + |d.0| + |d.1| <= |url|
    requires url[p] == 'w' && url[p + 1] == '=' && url[p + 2..p + 2 + |d.0|] == d.0
    requires url[p + 2 + |d.0|] == '&' && url[p + 3 + |d.0|] == 'h' && url[p + 4 + |d.0|] == '='
    requires url[p + 5 + |d.0|..p + 5 + |d.0| + |d.1|] == d.1
    requires p + 5 + |d.0| + |d.1| == |url| || !IsDigit(url[p + 5 + |d.0| + |d.1|])
    ensures MatchEnd(url, p) == Some(p + 5 + |d.0| + |d.1|)
  {
    DigitRunIs(url, p + 2, d.0);
    DigitRunIs(url, p + 5 + |d.0|, d.1);
  }

  /** A match at `p` with none from `i` up to it is the leftmost one from `i`. */
  lemma {:induction false} LeftmostMatch(s: string, i: nat, p: nat, e: nat)
    requires i <= p <= |s|
    requires forall j :: i <= j < p ==> MatchEnd(s, j).None?
    requires MatchEnd(s, p) == Some(e)
    ensures FirstSizeMatch(s, i) == Some((p, e))
    decreases p - i
  {
    if i < p {
      SkipNonMatch(s, i);
      LeftmostMatch(s, i + 1, p, e);
    }
  }

  /** A position where no match starts is skipped. */
  lemma SkipNonMatch(s: string, i: nat)
    requires i < |s| && MatchEnd(s, i).None?
    ensures FirstSizeMatch(s, i) == FirstSizeMatch(s, i + 1)
  {
  }

  /**
   * The first `w=\d+&h=\d+` of `head?w=<w>&h=<h>tail` is the one right after
   * the `?`, when `head` has no `w`, both sizes are digits and `tail` does not
   * start with one.
   */
  lemma FirstMatchIsQuery(head: string, d: (string, string), tail: string)
    requires 'w' !in head && Dimensions(d)
    requires tail == "" || !IsDigit(tail[0])
    ensures var p := |head| + 1;
      FirstSizeMatch(head + "?" + SizeParam(d) + tail, 0) == Some((p, p + 5 + |d.0| + |d.1|))
  {
    QueryLayout(head, d, tail);
    FirstMatchInLayout(head + "?" + SizeParam(d) + tail, head, d, tail);
  }

  lemma FirstMatchInLayout(url: string, head: string, d: (string, string), tail: string)
    requires Layout(url, head, d, tail) && 'w' !in head && Dimensions(d)
    requires tail == "" || !IsDigit(tail[0])
    ensures var p := |head| + 1;
      FirstSizeMatch(url, 0) == Some((p, p + 5 + |d.0| + |d.1|))
  {
    var p: nat := |head| + 1;
    NoMatchBeforeQuery(url, head);
    MatchAtIs(url, p, d);
    LeftmostMatch(url, 0, p, p + 5 + |d.0| + |d.1|);
  }

  /** Rewriting `head?w=<w>&h=<h>tail` to dimensions `d2` replaces exactly the two numbers. */
  lemma ResizeQuery(head: string, d: (string, string), tail: string, size: string)
    requires 'w' !in head && Dimensions(d)
    requires tail == "" || !IsDigit(tail[0])
    requires size in SIZE_PARAMS
    ensures Resize(head + "?" + SizeParam(d) + tail, size) == head + "?" + SizeParam(SIZE_PARAMS[size]) + tail
  {
    FirstMatchIsQuery(head, d, tail);
    QueryLayout(head, d, tail);
  }

  /**
   * In a stock URL the first `w=..&h=..` is the size query itself: the
   * rewrite puts the requested width and height there and keeps the rest.
   */
  lemma ResizeSized(id: string, w: string, h: string, size: string)
    requires PhotoId(id) && Dimensions((w, h))
    requires size in SIZE_PARAMS
    ensures Resize(SizedUrl(id, w, h), size) == SizedUrl(id, SIZE_PARAMS[size].0, SIZE_PARAMS[size].1)
  {
    PrefixHasNoW();
    PhotoIdHasNoW(id);
    TailStartsWithAmpersand();
    ResizeQuery(PHOTO_PREFIX + id, (w, h), QUERY_TAIL, size);
  }

  /** Every size in the table is a pair of digit strings. */
  lemma SizeParamsDigits(size: string)
    requires size in SIZE_PARAMS
    ensures Dimensions(SIZE_PARAMS[size])
  {
  }

  /** Rewriting a stock URL twice to the same size is rewriting it once. */
  lemma ResizeIdempotent(id: string, size: string)
    requires PhotoId(id) && size in SIZE_PARAMS
    ensures Resize(Resize(StockUrl(id), size), size) == Resize(StockUrl(id), size)
  {
    SizeParamsDigits(size);
    StockDimensions();
    ResizeSized(id, "1200", "800", size);
    ResizeSized(id, SIZE_PARAMS[size].0, SIZE_PARAMS[size].1, size);
  }

  /** The default size is `large`, which keeps the tables' `w=1200&h=800`. */
  lemma DefaultSizeKeepsStockUrl(id: string)
    requires PhotoId(id)
    ensures Resize(StockUrl(id), SizeKey(None)) == StockUrl(id)
  {
    LargeIsTableSize();
    StockDimensions();
    ResizeSized(id, "1200", "800", "large");
  }

  lemma StockDimensions()
    ensures Dimensions(("1200", "800"))
  {
  }

  lemma LargeIsTableSize()
    ensures SizeKey(None) == "large" && "large" in SIZE_PARAMS && SIZE_PARAMS["large"] == ("1200", "800")
  {
  }

  /** A table URL at a known size: the same photograph at that size's width and height. */
  lemma StockUrlAtSize(id: string, size: string)
    requires PhotoId(id) && size in SIZE_PARAMS
    ensures Resize(StockUrl(id), size) == SizedUrl(id, SIZE_PARAMS[size].0, SIZE_PARAMS[size].1)
  {
    StockDimensions();
    ResizeSized(id, "1200", "800", size);
  }

  // ---------------------------------------------------------------- the `type` lookup as written

  /** The property names every JavaScript object inherits that are already lower case. */
  const INHERITED_KEYS: set<string> := {"constructor", "__proto__"}

  /** What `RESOURCE_STOCK_IMAGES[key]` evaluates to: an own URL, an inherited member (truthy, not a string), or `undefined`. */
  datatype TypeLookup = OwnUrl(id: string) | InheritedMember | Undefined

  function TypeLookupAsWritten(typeKey: string): TypeLookup {
    if typeKey in RESOURCE_STOCK_IMAGES then OwnUrl(RESOURCE_STOCK_IMAGES[typeKey])
    else if typeKey in INHERITED_KEYS then InheritedMember
    else Undefined
  }

  /**
   * The type fallback and size rewrite as written: an inherited member is truthy, so `||` keeps
   * it as `imageUrl`, and `imageUrl.match` is then not a function. Otherwise the size rewrite
   * is the written one, `ResizeAsWritten`.
   */
  function StockImageAsWritten(resourceType: Option<string>, resourceName: Option<string>, size: Option<string>)
    : (r: Result<string, string>)
    ensures ((NameKey(resourceName) == "" || NamedMatch(NameKey(resourceName), NAMED_RESOURCE_IMAGES).None?) &&
      TypeLookupAsWritten(TypeKey(resourceType)) == InheritedMember) ==> r.Err?
  {
    var typeKey := TypeKey(resourceType);
    var nameKey := NameKey(resourceName);
    var m := NamedMatch(nameKey, NAMED_RESOURCE_IMAGES);
    if nameKey != "" && m.Some? then ResizeAsWritten(StockUrl(NAMED_RESOURCE_IMAGES[m.value].1), SizeKey(size))
    else match TypeLookupAsWritten(typeKey)
      case OwnUrl(id) => ResizeAsWritten(StockUrl(id), SizeKey(size))
      case InheritedMember => Err("TypeError: imageUrl.match is not a function")
      case Undefined => ResizeAsWritten(StockUrl(RESOURCE_STOCK_IMAGES["other"]), SizeKey(size))
  }

  /**
   * Unless the written type lookup finds an inherited member, the code as written rewrites the
   * photograph the corrected lookup chooses; for a size that no object inherits, it returns the
   * URL the corrected operation returns.
   */
  lemma AsWrittenAgreesElsewhere(resourceType: Option<string>, resourceName: Option<string>, size: Option<string>)
    requires (NameKey(resourceName) != "" && NamedMatch(NameKey(resourceName), NAMED_RESOURCE_IMAGES).Some?) ||
      TypeLookupAsWritten(TypeKey(resourceType)) != InheritedMember
    ensures StockImageAsWritten(resourceType, resourceName, size)
      == ResizeAsWritten(StockUrl(ChosenId(TABLES, TypeKey(resourceType), NameKey(resourceName))), SizeKey(size))
    ensures SizeKey(size) !in OBJECT_PROTOTYPE_KEYS ==>
      (StockImageAsWritten(resourceType, resourceName, size)
        == Ok(Resize(StockUrl(ChosenId(TABLES, TypeKey(resourceType), NameKey(resourceName))), SizeKey(size))))
  {
    var typeKey := TypeKey(resourceType);
    var nameKey := NameKey(resourceName);
    var m := NamedMatch(nameKey, NAMED_RESOURCE_IMAGES);
    if !(nameKey != "" && m.Some?) {
      if typeKey in RESOURCE_STOCK_IMAGES {
        assert TypeLookupAsWritten(typeKey) == OwnUrl(RESOURCE_STOCK_IMAGES[typeKey]);
      } else {
        assert TypeLookupAsWritten(typeKey) == Undefined;
      }
    }
    if SizeKey(size) !in OBJECT_PROTOTYPE_KEYS {
      ResizeAsWrittenAgrees(StockUrl(ChosenId(TABLES, typeKey, nameKey)), SizeKey(size));
    }
  }

  /** A resource of type `constructor` without a named match makes the code as written throw. */
  lemma ConstructorTypeThrows(resourceType: Option<string>, resourceName: Option<string>, size: Option<string>)
    requires resourceType == Some("constructor") && resourceName.None?
    ensures StockImageAsWritten(resourceType, resourceName, size).Err?
  {
    ConstructorKey(resourceType);
    ConstructorInherited();
  }

  lemma ConstructorKey(resourceType: Option<string>)
    requires resourceType == Some("constructor")
    ensures TypeKey(resourceType) == "constructor"
  {
    ConstructorLower();
    ConstructorTrim();
  }

  lemma ConstructorTrim()
    ensures Trim("constructor") == "constructor"
  {
    TrimNoSpaceEnds("constructor");
  }

  lemma ConstructorLower()
    ensures Lower("constructor") == "constructor"
  {
  }

  lemma ConstructorInherited()
    ensures TypeLookupAsWritten("constructor") == InheritedMember
  {
    assert "constructor" !in RESOURCE_STOCK_IMAGES;
  }

  // ---------------------------------------------------------------- the `size` lookup as written

  /**
   * The members of `Object.prototype`. `sizeParams[size]` looks the size up as
   * passed (it is not lower-cased), so each of these names finds the inherited
   * member, which is truthy.
   */
  const OBJECT_PROTOTYPE_KEYS: set<string> := {"constructor", "__proto__", "toString", "toLocaleString",
    "valueOf", "hasOwnProperty", "isPrototypeOf", "propertyIsEnumerable",
    "__defineGetter__", "__defineSetter__", "__lookupGetter__", "__lookupSetter__"}

  /** What `imageUrl.replace(/w=\d+&h=\d+/, sizeParams[size])` puts where the match was. */
  datatype Replacement = SameText | Text(t: string) | Throws

  /**
   * The replacement for each size. An own key gives its text; `undefined` is falsy, so
   * no rewrite happens. `Object.prototype` (the value of `__proto__`) becomes the text
   * `[object Object]`. A member function is called as the replacer with `this`
   * undefined: `toString` answers `[object Undefined]`, `isPrototypeOf` answers
   * `false` for the matched string, `constructor` (`Object`) wraps the matched string,
   * which reads back as itself, and the others first convert `this` to an object
   * and throw `TypeError`.
   */
  function SizeReplacementAsWritten(size: string): Replacement {
    if size in SIZE_PARAMS then Text(SizeParam(SIZE_PARAMS[size]))
    else if size !in OBJECT_PROTOTYPE_KEYS then SameText
    else if size == "__proto__" then Text("[object Object]")
    else if size == "toString" then Text("[object Undefined]")
    else if size == "isPrototypeOf" then Text("false")
    else if size == "constructor" then SameText
    else Throws
  }

  /** The size rewrite as written: replace the first `w=..&h=..`, if there is one, by the size's replacement. */
  function ResizeAsWritten(url: string, size: string): Result<string, string> {
    var m := FirstSizeMatch(url, 0);
    if m.None? then Ok(url)
    else match SizeReplacementAsWritten(size)
      case SameText => Ok(url)
      case Text(t) => Ok(url[..m.value.0] + t + url[m.value.1..])
      case Throws => Err("TypeError: Cannot convert undefined or null to object")
  }

  /** For a size no object inherits, the written rewrite is `Resize`. */
  lemma ResizeAsWrittenAgrees(url: string, size: string)
    requires size !in OBJECT_PROTOTYPE_KEYS
    ensures ResizeAsWritten(url, size) == Ok(Resize(url, size))
  {
  }

  /** A stock URL's first match is its size query. */
  lemma StockUrlMatch(id: string)
    requires PhotoId(id)
    ensures var p := |PHOTO_PREFIX + id| + 1;
      FirstSizeMatch(StockUrl(id), 0) == Some((p, p + 12)) &&
      StockUrl(id)[..p] == PHOTO_PREFIX + id + "?" && StockUrl(id)[p + 12..] == QUERY_TAIL
  {
    PrefixHasNoW();
    PhotoIdHasNoW(id);
    TailStartsWithAmpersand();
    StockDimensions();
    FirstMatchIsQuery(PHOTO_PREFIX + id, ("1200", "800"), QUERY_TAIL);
    QueryLayout(PHOTO_PREFIX + id, ("1200", "800"), QUERY_TAIL);
  }

  /** Size `toString` writes `[object Undefined]` where a stock URL's size query was. */
  lemma ToStringSizeAsWritten(id: string)
    requires PhotoId(id)
    ensures ResizeAsWritten(StockUrl(id), "toString") == Ok(PHOTO_PREFIX + id + "?" + "[object Undefined]" + QUERY_TAIL)
  {
    StockUrlMatch(id);
    var p := |PHOTO_PREFIX + id| + 1;
    assert SizeReplacementAsWritten("toString") == Text("[object Undefined]");
    assert ResizeAsWritten(StockUrl(id), "toString") == Ok(StockUrl(id)[..p] + "[object Undefined]" + StockUrl(id)[p + 12..]);
  }

  /** Size `valueOf` makes the rewrite of a stock URL throw. */
  lemma ValueOfSizeThrows(id: string)
    requires PhotoId(id)
    ensures ResizeAsWritten(StockUrl(id), "valueOf").Err?
  {
    StockUrlMatch(id);
    assert SizeReplacementAsWritten("valueOf") == Throws;
  }

  /** The `other` photograph's id has the shape of a photograph id. */
  lemma OtherIdIsPhotoId()
    ensures PhotoId(RESOURCE_STOCK_IMAGES["other"])
  {
  }

  /**
   * A resource without a name and of an unknown type, asked for at size `toString`,
   * gets the `other` photograph with `[object Undefined]` in place of its size.
   */
  lemma UnknownTypeToStringSize()
    ensures StockImageAsWritten(None, None, Some("toString"))
      == Ok(PHOTO_PREFIX + RESOURCE_STOCK_IMAGES["other"] + "?" + "[object Undefined]" + QUERY_TAIL)
  {
    OtherKey();
    assert TypeLookupAsWritten("other") == OwnUrl(RESOURCE_STOCK_IMAGES["other"]);
    OtherIdIsPhotoId();
    ToStringSizeAsWritten(RESOURCE_STOCK_IMAGES["other"]);
  }

  lemma OtherKey()
    ensures TypeKey(None) == "other" && NameKey(None) == ""
  {
    OtherLower();
    OtherTrim();
    EmptyLowerTrim();
  }

  lemma OtherLower()
    ensures Lower("other") == "other"
  {
  }

  lemma OtherTrim()
    ensures Trim("other") == "other"
  {
    TrimNoSpaceEnds("other");
  }

  lemma EmptyLowerTrim()
    ensures Trim(Lower("")) == ""
  {
  }
}
