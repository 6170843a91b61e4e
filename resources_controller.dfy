/**
 * The resources controller: the image-upload test, the filters and the
 * page arithmetic of the listing, the dropdown lists of types and
 * locations, the JSON search, the field validation of create and edit, and
 * the create, edit and delete endpoints over the resource catalog.
 */
module ResourcesController {
  import opened Common
  import opened PySeq
  import opened Strings
  import opened Sorting
  import opened Models
  import opened Uploads

  const ALLOWED_EXTENSIONS: set<string> := {"jpg", "jpeg", "png", "webp"}
  const PER_PAGE := 12
  const SEARCH_LIMIT := 10
  const MIN_SEARCH_LENGTH := 2

  // ----------------------------------------------------------------- uploads

  /** `allowed_file`: the lower-cased text after the last dot is one of the four image types. */
  predicate AllowedFile(filename: string) {
    HasAllowedExtension(filename, ALLOWED_EXTENSIONS)
  }

  /** The letter case of the extension does not matter. */
  lemma AllowedFileIgnoresCase(base: string, ext: string)
    requires '.' !in ext
    ensures AllowedFile(base + "." + ext) <==> AllowedFile(base + "." + Lower(ext))
  {
    ExtensionOfName(base, ext);
    assert '.' !in Lower(ext) by {
      forall i | 0 <= i < |ext| ensures Lower(ext)[i] != '.' {
        assert ext[i] != '.';
      }
    }
    ExtensionOfName(base, Lower(ext));
    LowerIdempotent(ext);
  }

  /** Upper case is accepted and only the last extension counts. */
  lemma UpperCaseJpgAllowed()
    ensures AllowedFile("photo.JPG")
  {
    ExtensionOfName("photo", "JPG");
    assert Lower("JPG") == "jpg";
  }

  lemma GifRefused()
    ensures !AllowedFile("photo.gif")
  {
    ExtensionOfName("photo", "gif");
    assert Lower("gif") == "gif";
  }

  /** The `image` part of a form: the browser's file name and the size of the file in bytes. */
  datatype Upload = Upload(filename: string, size: nat)

  /** `file and file.filename != ''`: a file was chosen. */
  predicate ImageGiven(upload: Option<Upload>) {
    upload.Some? && upload.value.filename != ""
  }

  /** `save_uploaded_file` returns `None`: the name is not allowed or the file is over 5 MB. */
  predicate ImageRefused(u: Upload) {
    !AllowedFile(u.filename) || !SizeAllowed(u.size)
  }

  // ----------------------------------------------------------------- listing

  predicate IsPublished(r: Resource) {
    r.status == RESOURCE_PUBLISHED
  }

  /** The keyword, in any case, is part of the name or of a non-empty description. */
  predicate KeywordMatch(r: Resource, keyword: string) {
    Contains(Lower(r.name), Lower(keyword)) ||
    (r.description.Some? && r.description.value != "" && Contains(Lower(r.description.value), Lower(keyword)))
  }

  /** The published resources, narrowed by each of the three filters in turn; an empty value applies no filter. */
  function Filtered(rows: seq<Resource>, keyword: string, resourceType: string, location: string): seq<Resource> {
    var published := Filter(rows, IsPublished);
    var byKeyword := if keyword != "" then Filter(published, (r: Resource) => KeywordMatch(r, keyword)) else published;
    var byType := if resourceType != "" then Filter(byKeyword, (r: Resource) => r.resourceType == resourceType) else byKeyword;
    if location != "" then Filter(byType, (r: Resource) => r.location == location) else byType
  }

  /** A resource the listing shows: published and passing every filter that is set. */
  predicate ListMatch(r: Resource, keyword: string, resourceType: string, location: string) {
    IsPublished(r) &&
    (keyword == "" || KeywordMatch(r, keyword)) &&
    (resourceType == "" || r.resourceType == resourceType) &&
    (location == "" || r.location == location)
  }

  predicate KeywordStage(r: Resource, keyword: string) {
    IsPublished(r) && (keyword == "" || KeywordMatch(r, keyword))
  }

  predicate TypeStage(r: Resource, keyword: string, resourceType: string) {
    KeywordStage(r, keyword) && (resourceType == "" || r.resourceType == resourceType)
  }

  /** The filters compose: applying them one after the other is one filter by their conjunction. */
  lemma FiltersCompose(rows: seq<Resource>, keyword: string, resourceType: string, location: string)
    ensures Filtered(rows, keyword, resourceType, location) ==
      Filter(rows, (r: Resource) => ListMatch(r, keyword, resourceType, location))
  {
    var p1 := (r: Resource) => KeywordStage(r, keyword);
    var p2 := (r: Resource) => TypeStage(r, keyword, resourceType);
    FilterWhen(rows, IsPublished, (r: Resource) => KeywordMatch(r, keyword), p1, keyword != "");
    FilterWhen(rows, p1, (r: Resource) => r.resourceType == resourceType, p2, resourceType != "");
    FilterWhen(rows, p2, (r: Resource) => r.location == location,
      (r: Resource) => ListMatch(r, keyword, resourceType, location), location != "");
  }

  /** What the listing template receives. */
  datatype ListPage = ListPage(
    resources: seq<Resource>,
    total: nat,
    totalPages: nat,
    hasPrev: bool,
    hasNext: bool,
    types: seq<string>,
    locations: seq<string>)

  /** `all_resources[offset:offset + per_page]` with `offset = (page - 1) * per_page`. */
  function PageSlice<T>(all: seq<T>, page: int): seq<T> {
    var offset := (page - 1) * PER_PAGE;
    PySlice(all, offset, offset + PER_PAGE)
  }

  /** `(total + per_page - 1) // per_page`. */
  function TotalPages(total: nat): nat {
    (total + PER_PAGE - 1) / PER_PAGE
  }

  /** `list_resources`: the query-string values arrive unstripped; `page` is the requested page number. */
  function ListResources(rows: seq<Resource>, keyword: string, resourceType: string, location: string, page: int): ListPage {
    ListingOf(rows, Filtered(rows, Strip(keyword), Strip(resourceType), Strip(location)), page)
  }

  /** The listing page for the matching resources `all`, with the dropdowns over every row. */
  function ListingOf(rows: seq<Resource>, all: seq<Resource>, page: int): ListPage {
    var totalPages := TotalPages(|all|);
    ListPage(
      PageSlice(all, page),
      |all|,
      totalPages,
      page > 1,
      page < totalPages,
      DropdownValues(rows, (r: Resource) => r.resourceType),
      DropdownValues(rows, (r: Resource) => r.location))
  }

  /** The page count is the ceiling of the total over twelve. */
  lemma TotalPagesIsCeiling(total: nat)
    ensures total == 0 <==> TotalPages(total) == 0
    ensures total > 0 ==> (TotalPages(total) - 1) * PER_PAGE < total <= TotalPages(total) * PER_PAGE
  {
  }

  /** A page from 1 on holds the next twelve items, or what is left of them. */
  lemma PageSliceContents<T>(all: seq<T>, page: int)
    requires page >= 1
    ensures var from := if (page - 1) * PER_PAGE < |all| then (page - 1) * PER_PAGE else |all|;
      var to := if page * PER_PAGE < |all| then page * PER_PAGE else |all|;
      PageSlice(all, page) == all[from..to] && |PageSlice(all, page)| <= PER_PAGE
  {
  }

  /** From page 1 on, `has_next` holds exactly when items remain after the page. */
  lemma HasNextIffMore(total: nat, page: int)
    requires page >= 1
    ensures page < TotalPages(total) <==> page * PER_PAGE < total
  {
  }

  /** Every item is on exactly the page its position says, and that page exists. */
  lemma ItemOnItsPage<T>(all: seq<T>, i: nat)
    requires i < |all|
    ensures var page := i / PER_PAGE + 1;
      1 <= page <= TotalPages(|all|) &&
      i % PER_PAGE < |PageSlice(all, page)| &&
      PageSlice(all, page)[i % PER_PAGE] == all[i]
  {
    var page := i / PER_PAGE + 1;
    PageSliceContents(all, page);
    assert (page - 1) * PER_PAGE == i - i % PER_PAGE;
  }

  /** Page 0 is empty, since the slice ends at index 0. */
  lemma PageZeroEmpty<T>(all: seq<T>)
    ensures PageSlice(all, 0) == []
  {
  }

  /**
   * A negative page is not refused: its bounds count from the end, so page
   * -1 shows the twelve items before the last twelve.
   */
  lemma NegativePageCountsFromEnd<T>(all: seq<T>, page: int)
    requires page < 0 && (1 - page) * PER_PAGE <= |all|
    ensures PageSlice(all, page) == all[|all| + (page - 1) * PER_PAGE..|all| + page * PER_PAGE]
  {
  }

  /** The listing shows the page of the matching resources, counts all of them, and links back from page 2 on. */
  lemma ListingPage(rows: seq<Resource>, all: seq<Resource>, page: int)
    ensures var out := ListingOf(rows, all, page);
      out.total == |all| && out.totalPages == TotalPages(|all|) &&
      (out.hasPrev <==> page > 1) &&
      (page >= 1 ==> (out.hasNext <==> page * PER_PAGE < |all|)) &&
      forall k :: 0 <= k < |out.resources| ==> out.resources[k] in all
  {
    if page >= 1 {
      HasNextIffMore(|all|, page);
    }
  }

  // ---------------------------------------------------------------- dropdowns

  /** Some published resource has `v` in the field. */
  predicate PublishedWith(rows: seq<Resource>, field: Resource -> string, v: string) {
    exists k :: 0 <= k < |rows| && IsPublished(rows[k]) && field(rows[k]) == v
  }

  /** The non-empty values of a field over the published resources, in table order. */
  function PublishedValues(rows: seq<Resource>, field: Resource -> string): (vs: seq<string>)
    ensures forall v :: v in vs <==> v != "" && PublishedWith(rows, field, v)
    decreases |rows|
  {
    if |rows| == 0 then []
    else
      var init := rows[..|rows| - 1];
      var last := rows[|rows| - 1];
      var rest := PublishedValues(init, field);
      assert forall v :: PublishedWith(rows, field, v) <==>
        PublishedWith(init, field, v) || (IsPublished(last) && field(last) == v) by {
        forall v ensures PublishedWith(rows, field, v) ==> PublishedWith(init, field, v) || (IsPublished(last) && field(last) == v) {
          if PublishedWith(rows, field, v) {
            var k :| 0 <= k < |rows| && IsPublished(rows[k]) && field(rows[k]) == v;
            if k < |init| { assert init[k] == rows[k]; }
          }
        }
        forall v ensures PublishedWith(init, field, v) ==> PublishedWith(rows, field, v) {
          if PublishedWith(init, field, v) {
            var k :| 0 <= k < |init| && IsPublished(init[k]) && field(init[k]) == v;
            assert rows[k] == init[k];
          }
        }
      }
      if IsPublished(last) && field(last) != "" then rest + [field(last)] else rest
  }

  /** `sorted(set(field(r) for r in all_published if field(r)))`. */
  function DropdownValues(rows: seq<Resource>, field: Resource -> string): (r: seq<string>)
    ensures StrictlySorted(r)
    ensures forall v :: v in r <==> v != "" && PublishedWith(rows, field, v)
  {
    SortedUnique(PublishedValues(rows, field))
  }

  // ------------------------------------------------------------------ search

  /** One entry of the JSON search answer. */
  datatype SearchResult = SearchResult(id: int, name: string, resourceType: string, location: string)

  function ResultOf(r: Resource): SearchResult {
    SearchResult(r.id, r.name, r.resourceType, r.location)
  }

  /** `name ILIKE '%kw%' OR description ILIKE '%kw%'`; a NULL description matches nothing. */
  predicate IlikeMatch(r: Resource, keyword: string) {
    Contains(Lower(r.name), Lower(keyword)) ||
    (r.description.Some? && Contains(Lower(r.description.value), Lower(keyword)))
  }

  predicate SearchMatch(r: Resource, keyword: string, resourceType: string) {
    IsPublished(r) && (resourceType == "" || r.resourceType == resourceType) && IlikeMatch(r, keyword)
  }

  /** `x` describes some published resource that the search matches. */
  predicate SearchHit(rows: seq<Resource>, keyword: string, resourceType: string, x: SearchResult) {
    exists k :: 0 <= k < |rows| && SearchMatch(rows[k], keyword, resourceType) && ResultOf(rows[k]) == x
  }

  /** The published resources the search matches, in table order. */
  function SearchMatches(rows: seq<Resource>, keyword: string, resourceType: string): (r: seq<Resource>)
    ensures forall x :: x in r <==> x in rows && SearchMatch(x, keyword, resourceType)
  {
    Filter(rows, (x: Resource) => SearchMatch(x, keyword, resourceType))
  }

  /** `api_search`: nothing for a keyword under two characters, otherwise at most ten matches. */
  function ApiSearch(rows: seq<Resource>, q: string, resourceType: string): (results: seq<SearchResult>)
    ensures |Strip(q)| < MIN_SEARCH_LENGTH ==> results == []
    ensures |results| <= SEARCH_LIMIT
    ensures forall k :: 0 <= k < |results| ==> SearchHit(rows, Strip(q), Strip(resourceType), results[k])
  {
    SearchFor(rows, Strip(q), Strip(resourceType))
  }

  /** The search on the stripped keyword and type. */
  function SearchFor(rows: seq<Resource>, keyword: string, rt: string): (results: seq<SearchResult>)
    ensures |keyword| < MIN_SEARCH_LENGTH ==> results == []
    ensures |results| <= SEARCH_LIMIT
    ensures forall k :: 0 <= k < |results| ==> SearchHit(rows, keyword, rt, results[k])
  {
    if |keyword| < MIN_SEARCH_LENGTH then []
    else
      var hits := Take(SearchMatches(rows, keyword, rt), SEARCH_LIMIT);
      assert forall k :: 0 <= k < |hits| ==> SearchHit(rows, keyword, rt, ResultOf(hits[k])) by {
        forall k | 0 <= k < |hits| ensures SearchHit(rows, keyword, rt, ResultOf(hits[k])) {
          var all := SearchMatches(rows, keyword, rt);
          assert hits[k] == all[k];
          assert all[k] in rows;
          var j :| 0 <= j < |rows| && rows[j] == hits[k];
        }
      }
      seq(|hits|, k requires 0 <= k < |hits| => ResultOf(hits[k]))
  }

  /** With ten matches or fewer, every match is in the answer. */
  lemma SearchComplete(rows: seq<Resource>, keyword: string, rt: string, r: Resource)
    requires |keyword| >= MIN_SEARCH_LENGTH
    requires |SearchMatches(rows, keyword, rt)| <= SEARCH_LIMIT
    requires r in rows && SearchMatch(r, keyword, rt)
    ensures ResultOf(r) in SearchFor(rows, keyword, rt)
  {
    var all := SearchMatches(rows, keyword, rt);
    assert r in all;
    var k :| 0 <= k < |all| && all[k] == r;
    assert SearchFor(rows, keyword, rt)[k] == ResultOf(r);
  }

  // -------------------------------------------------------------- validation

  /** The create and edit forms as submitted: text fields before `.strip()`, the checkbox's raw value. */
  datatype ResourceForm = ResourceForm(
    name: string,
    description: string,
    resourceType: string,
    location: string,
    capacity: string,
    isAvailable: Option<string>)

  /** The checks of the create and edit forms, one per message the source flashes. */
  datatype FormError =
    | NameTooShort
    | DescriptionTooShort
    | TypeMissing
    | LocationMissing
    | CapacityBelowOne
    | CapacityNegative
    | CapacityNotNumber
    | ImageInvalid

  /** The text flashed for each check. */
  function Message(e: FormError): string {
    match e
    case NameTooShort => "Resource name must be at least 3 characters"
    case DescriptionTooShort => "Description must be at least 10 characters"
    case TypeMissing => "Resource type is required"
    case LocationMissing => "Location is required"
    case CapacityBelowOne => "Capacity must be at least 1"
    case CapacityNegative => "Capacity cannot be negative"
    case CapacityNotNumber => "Capacity must be a valid number"
    case ImageInvalid => "Invalid image file. Only JPG, PNG, and WebP allowed. Max 5MB."
  }

  /** The place of each check in the order the checks run; the capacity checks share one. */
  function ErrorRank(e: FormError): int {
    match e
    case NameTooShort => 0
    case DescriptionTooShort => 1
    case TypeMissing => 2
    case LocationMissing => 3
    case CapacityBelowOne => 4
    case CapacityNegative => 4
    case CapacityNotNumber => 4
    case ImageInvalid => 5
  }

  /** The messages come in the order of the checks, so each check reports at most once. */
  predicate InCheckOrder(errors: seq<FormError>) {
    forall i, j :: 0 <= i < j < |errors| ==> ErrorRank(errors[i]) < ErrorRank(errors[j])
  }

  /** `is_available = request.form.get('is_available') == 'on'`. */
  function Available(form: ResourceForm): bool {
    form.isAvailable == Some("on")
  }

  /**
   * The outcome of each check on a submitted form: which field checks fail,
   * whether the capacity field is empty, what `int()` makes of it, and
   * whether a chosen image is refused.
   */
  datatype Checks = Checks(
    nameShort: bool,
    descriptionShort: bool,
    typeBlank: bool,
    locationBlank: bool,
    capacityBlank: bool,
    parsed: Option<int>,
    imageFails: bool)

  /**
   * The checks create and edit run: name and description (stripped) of at
   * least 3 and 10 characters, type and location (stripped) not empty, the
   * raw capacity text and `int()` of it, and `save_uploaded_file` refusing a
   * chosen file.
   */
  function FormChecks(form: ResourceForm, upload: Option<Upload>): Checks {
    Checks(
      |Strip(form.name)| < 3,
      |Strip(form.description)| < 10,
      Strip(form.resourceType) == "",
      Strip(form.location) == "",
      form.capacity == "",
      PyInt(form.capacity),
      ImageGiven(upload) && ImageRefused(upload.value))
  }

  /** The message of a check, when it fails. */
  function Report(failed: bool, e: FormError): seq<FormError> {
    if failed then [e] else []
  }

  /** The four field checks in their order. */
  function FieldReports(c: Checks): seq<FormError> {
    Report(c.nameShort, NameTooShort) + Report(c.descriptionShort, DescriptionTooShort) +
    Report(c.typeBlank, TypeMissing) + Report(c.locationBlank, LocationMissing)
  }

  /**
   * The capacity check: nothing for an empty field, otherwise a message when
   * `int()` fails or gives less than `least`.
   */
  function CapacityReports(c: Checks, least: int, tooSmall: FormError): seq<FormError> {
    if c.capacityBlank then []
    else if c.parsed.None? then [CapacityNotNumber]
    else Report(c.parsed.value < least, tooSmall)
  }

  /** Every message of a form, in the order the checks run. */
  function Reports(c: Checks, least: int, tooSmall: FormError): seq<FormError> {
    FieldReports(c) + CapacityReports(c, least, tooSmall) + Report(c.imageFails, ImageInvalid)
  }

  /** `create_resource`'s messages: a capacity, when given, must be an integer of at least 1. */
  function CreateErrors(form: ResourceForm, upload: Option<Upload>): seq<FormError> {
    Reports(FormChecks(form, upload), 1, CapacityBelowOne)
  }

  /** `edit_resource`'s messages: a capacity, when given, must be an integer that is not negative. */
  function EditErrors(form: ResourceForm, upload: Option<Upload>): seq<FormError> {
    Reports(FormChecks(form, upload), 0, CapacityNegative)
  }

  /** The capacity create stores: `int(capacity)` when the field is set and parses. */
  function CreateCapacity(capacity: string): Option<int> {
    if capacity == "" then None else PyInt(capacity)
  }

  /** The capacity edit stores: the parsed field, or the old capacity when the field is empty or does not parse. */
  function EditCapacity(capacity: string, old_: Option<int>): Option<int> {
    if capacity != "" && PyInt(capacity).Some? then PyInt(capacity) else old_
  }

  /** Which check reports `e`, and whether it fails. */
  predicate Fails(e: FormError, c: Checks, least: int, tooSmall: FormError) {
    match e
    case NameTooShort => c.nameShort
    case DescriptionTooShort => c.descriptionShort
    case TypeMissing => c.typeBlank
    case LocationMissing => c.locationBlank
    case CapacityNotNumber => !c.capacityBlank && c.parsed.None?
    case ImageInvalid => c.imageFails
    case _ => e == tooSmall && !c.capacityBlank && c.parsed.Some? && c.parsed.value < least
  }

  /** Every error of the list has a rank in `[lo, hi)`. */
  predicate RanksWithin(errors: seq<FormError>, lo: int, hi: int) {
    forall k :: 0 <= k < |errors| ==> lo <= ErrorRank(errors[k]) < hi
  }

  /** Blocks of checks run one after another report in check order. */
  lemma Joined(a: seq<FormError>, b: seq<FormError>, lo: int, mid: int, hi: int)
    requires lo <= mid <= hi
    requires InCheckOrder(a) && RanksWithin(a, lo, mid)
    requires InCheckOrder(b) && RanksWithin(b, mid, hi)
    ensures InCheckOrder(a + b) && RanksWithin(a + b, lo, hi)
  {
  }

  /** A single check reports at most its own error. */
  lemma ReportOrdered(failed: bool, e: FormError)
    ensures InCheckOrder(Report(failed, e)) && RanksWithin(Report(failed, e), ErrorRank(e), ErrorRank(e) + 1)
  {
  }

  /** The field checks report in their order, before every other check. */
  lemma FieldReportsOrdered(c: Checks)
    ensures InCheckOrder(FieldReports(c)) && RanksWithin(FieldReports(c), 0, 4)
  {
    var a, b, t, l := Report(c.nameShort, NameTooShort), Report(c.descriptionShort, DescriptionTooShort),
      Report(c.typeBlank, TypeMissing), Report(c.locationBlank, LocationMissing);
    ReportOrdered(c.nameShort, NameTooShort);
    ReportOrdered(c.descriptionShort, DescriptionTooShort);
    ReportOrdered(c.typeBlank, TypeMissing);
    ReportOrdered(c.locationBlank, LocationMissing);
    Joined(a, b, 0, 1, 2);
    Joined(a + b, t, 0, 2, 3);
    Joined(a + b + t, l, 0, 3, 4);
  }

  /** However the checks come out, the messages are in check order, so none repeats. */
  lemma ReportsOrdered(c: Checks, least: int, tooSmall: FormError)
    requires ErrorRank(tooSmall) == 4
    ensures InCheckOrder(Reports(c, least, tooSmall))
  {
    var f, p := FieldReports(c), CapacityReports(c, least, tooSmall);
    FieldReportsOrdered(c);
    assert InCheckOrder(p) && RanksWithin(p, 4, 5);
    ReportOrdered(c.imageFails, ImageInvalid);
    Joined(f, p, 0, 4, 5);
    Joined(f + p, Report(c.imageFails, ImageInvalid), 0, 5, 6);
  }

  /** A field error is in the field checks' report exactly when its check fails. */
  lemma FieldReportsHas(c: Checks, x: FormError)
    ensures x in FieldReports(c) <==>
      (c.nameShort && x == NameTooShort) || (c.descriptionShort && x == DescriptionTooShort) ||
      (c.typeBlank && x == TypeMissing) || (c.locationBlank && x == LocationMissing)
  {
  }

  /** A capacity error is in the capacity check's report exactly when the check fails that way. */
  lemma CapacityReportsHas(c: Checks, least: int, tooSmall: FormError, x: FormError)
    ensures x in CapacityReports(c, least, tooSmall) <==>
      (!c.capacityBlank && c.parsed.None? && x == CapacityNotNumber) ||
      (!c.capacityBlank && c.parsed.Some? && c.parsed.value < least && x == tooSmall)
  {
  }

  /** An error is in the report exactly when the check that reports it fails. */
  lemma ReportsHas(c: Checks, least: int, tooSmall: FormError, x: FormError)
    requires ErrorRank(tooSmall) == 4 && tooSmall != CapacityNotNumber
    ensures x in Reports(c, least, tooSmall) <==> Fails(x, c, least, tooSmall)
  {
    FieldReportsHas(c, x);
    CapacityReportsHas(c, least, tooSmall, x);
  }

  /** A form is accepted exactly when every check passes. */
  lemma ReportsEmpty(c: Checks, least: int, tooSmall: FormError)
    ensures Reports(c, least, tooSmall) == [] <==>
      !c.nameShort && !c.descriptionShort && !c.typeBlank && !c.locationBlank &&
      (!c.capacityBlank ==> c.parsed.Some? && c.parsed.value >= least) && !c.imageFails
  {
  }

  /**
   * Create reports every failed check, once, in the order of the checks, and
   * nothing else; edit does the same with its capacity rule.
   */
  lemma ErrorsExact(c: Checks)
    ensures InCheckOrder(Reports(c, 1, CapacityBelowOne)) && InCheckOrder(Reports(c, 0, CapacityNegative))
    ensures forall e :: e in Reports(c, 1, CapacityBelowOne) <==> Fails(e, c, 1, CapacityBelowOne)
    ensures forall e :: e in Reports(c, 0, CapacityNegative) <==> Fails(e, c, 0, CapacityNegative)
  {
    ReportsOrdered(c, 1, CapacityBelowOne);
    ReportsOrdered(c, 0, CapacityNegative);
    forall e
      ensures e in Reports(c, 1, CapacityBelowOne) <==> Fails(e, c, 1, CapacityBelowOne)
      ensures e in Reports(c, 0, CapacityNegative) <==> Fails(e, c, 0, CapacityNegative)
    {
      ReportsHas(c, 1, CapacityBelowOne, e);
      ReportsHas(c, 0, CapacityNegative, e);
    }
  }

  /** A form create accepts, edit accepts as well; a capacity of 0 passes edit but not create. */
  lemma EditLaxerThanCreate(c: Checks)
    ensures Reports(c, 1, CapacityBelowOne) == [] ==> Reports(c, 0, CapacityNegative) == []
    ensures !c.capacityBlank && c.parsed == Some(0) ==>
      CapacityBelowOne in Reports(c, 1, CapacityBelowOne) && CapacityNegative !in Reports(c, 0, CapacityNegative) &&
      CapacityNotNumber !in Reports(c, 0, CapacityNegative)
  {
    ReportsEmpty(c, 1, CapacityBelowOne);
    ReportsEmpty(c, 0, CapacityNegative);
    ReportsHas(c, 1, CapacityBelowOne, CapacityBelowOne);
    ReportsHas(c, 0, CapacityNegative, CapacityNegative);
    ReportsHas(c, 0, CapacityNegative, CapacityNotNumber);
  }

  /**
   * The validation both forms run: a message appended to `errors` per failed
   * check, in order; `cap` starts at `current` and becomes `int(capacity)`
   * when the field is set and parses.
   */
  method RunChecks(c: Checks, least: int, tooSmall: FormError, current: Option<int>) returns (errors: seq<FormError>, cap: Option<int>)
    ensures errors == Reports(c, least, tooSmall)
    ensures cap == if !c.capacityBlank && c.parsed.Some? then c.parsed else current
  {
    errors := [];
    if c.nameShort {
      errors := errors + [NameTooShort];
    }
    assert errors == Report(c.nameShort, NameTooShort);
    if c.descriptionShort {
      errors := errors + [DescriptionTooShort];
    }
    ghost var two := Report(c.nameShort, NameTooShort) + Report(c.descriptionShort, DescriptionTooShort);
    assert errors == two;
    if c.typeBlank {
      errors := errors + [TypeMissing];
    }
    assert errors == two + Report(c.typeBlank, TypeMissing);
    if c.locationBlank {
      errors := errors + [LocationMissing];
    }
    assert errors == FieldReports(c);
    ghost var fields := errors;
    cap := current;
    if !c.capacityBlank {
      if c.parsed.Some? {
        cap := c.parsed;
        if c.parsed.value < least {
          errors := errors + [tooSmall];
        }
      } else {
        errors := errors + [CapacityNotNumber];
      }
    }
    assert errors == fields + CapacityReports(c, least, tooSmall);
    if c.imageFails {
      errors := errors + [ImageInvalid];
    }
  }

  /** `create_resource`'s validation; `cap` is the capacity it would store. */
  method ValidateCreate(form: ResourceForm, upload: Option<Upload>) returns (errors: seq<FormError>, cap: Option<int>)
    ensures errors == CreateErrors(form, upload)
    ensures cap == CreateCapacity(form.capacity)
  {
    errors, cap := RunChecks(FormChecks(form, upload), 1, CapacityBelowOne, None);
  }

  /** `edit_resource`'s validation; `cap` starts from the resource's current capacity. */
  method ValidateEdit(form: ResourceForm, upload: Option<Upload>, current: Option<int>) returns (errors: seq<FormError>, cap: Option<int>)
    ensures errors == EditErrors(form, upload)
    ensures cap == EditCapacity(form.capacity, current)
  {
    errors, cap := RunChecks(FormChecks(form, upload), 0, CapacityNegative, current);
  }

  // ------------------------------------------------------------ ownership

  predicate HasResource(rows: seq<Resource>, id: int) {
    exists k :: 0 <= k < |rows| && rows[k].id == id
  }

  /** `Resource.query.get(id)`. */
  function FindResource(rows: seq<Resource>, id: int): (r: Option<Resource>)
    ensures r.Some? <==> HasResource(rows, id)
    ensures r.Some? ==> r.value in rows && r.value.id == id
    decreases |rows|
  {
    if |rows| == 0 then None
    else if rows[0].id == id then Some(rows[0])
    else
      var r := FindResource(rows[1..], id);
      assert HasResource(rows, id) ==> HasResource(rows[1..], id) by {
        if HasResource(rows, id) {
          var k :| 0 <= k < |rows| && rows[k].id == id;
          assert rows[1..][k - 1].id == id;
        }
      }
      r
  }

  /**
   * The owner guard of `edit_resource` and `delete_resource` as written.
   * `current_user.is_admin` names the method without calling it; a bound
   * method is truthy, so `not current_user.is_admin` is false and the guard
   * refuses nobody.
   */
  function RefusedAsWritten(r: Resource, caller: User): (refused: bool)
    ensures !refused
  {
    var isAdminAttribute := true;
    r.creatorId != caller.id && !isAdminAttribute
  }

  /** As written, a student passes the guard on a resource somebody else created. */
  lemma StrangerPassesGuardAsWritten()
    ensures var r := NewResource(4, "Study Room", "Library", "room", 1);
      var stranger := User(2, "sam", "sam@example.edu", "Sam", ROLE_STUDENT, true);
      r.creatorId != stranger.id && !IsAdmin(stranger) && !RefusedAsWritten(r, stranger)
  {
  }

  /** The guard the source means: only the creator, or an admin, may change a resource. */
  function Refused(r: Resource, caller: User): (refused: bool)
    ensures !refused <==> r.creatorId == caller.id || IsAdmin(caller)
  {
    r.creatorId != caller.id && !IsAdmin(caller)
  }

  /** The two guards agree exactly on creators and admins; they differ on everybody else. */
  lemma GuardsAgree(r: Resource, caller: User)
    ensures Refused(r, caller) == RefusedAsWritten(r, caller) <==> r.creatorId == caller.id || IsAdmin(caller)
  {
  }

  /** The `is_owner` and `is_admin` flags `detail_resource` hands to the page. */
  datatype DetailFlags = DetailFlags(isOwner: bool, isAdmin: bool)

  /**
   * `detail_resource`'s flags as written: `current_user.is_authenticated and
   * current_user.is_admin` yields the (truthy) bound method for any signed-in
   * viewer. `viewer` is `None` for an anonymous visitor.
   */
  function DetailFlagsAsWritten(r: Resource, viewer: Option<User>): (f: DetailFlags)
    ensures f.isAdmin <==> viewer.Some?
    ensures f.isOwner <==> viewer.Some? && viewer.value.id == r.creatorId
  {
    var isAdminAttribute := true;
    DetailFlags(viewer.Some? && viewer.value.id == r.creatorId, viewer.Some? && isAdminAttribute)
  }

  /** As written, a signed-in student is shown the page as an admin. */
  lemma StudentFlaggedAdminAsWritten()
    ensures var r := NewResource(4, "Study Room", "Library", "room", 1);
      var student := User(2, "sam", "sam@example.edu", "Sam", ROLE_STUDENT, true);
      !IsAdmin(student) && DetailFlagsAsWritten(r, Some(student)).isAdmin
  {
  }

  /** The flags the page means: the admin flag only for an admin. */
  function Flags(r: Resource, viewer: Option<User>): (f: DetailFlags)
    ensures f.isAdmin <==> viewer.Some? && IsAdmin(viewer.value)
    ensures f.isOwner <==> viewer.Some? && viewer.value.id == r.creatorId
  {
    DetailFlags(viewer.Some? && viewer.value.id == r.creatorId, viewer.Some? && IsAdmin(viewer.value))
  }

  /** The written and the intended flags differ exactly for a signed-in viewer who is not an admin. */
  lemma DetailFlagsDiffer(r: Resource, viewer: Option<User>)
    ensures Flags(r, viewer) != DetailFlagsAsWritten(r, viewer) <==> viewer.Some? && !IsAdmin(viewer.value)
  {
  }

  // ------------------------------------------------------------------ table

  /** The primary keys lie below the next one and are all different. */
  predicate ResourcesValid(rows: seq<Resource>, nextId: int) {
    nextId >= 1 &&
    (forall k :: 0 <= k < |rows| ==> 1 <= rows[k].id < nextId) &&
    (forall i, j :: 0 <= i < j < |rows| ==> rows[i].id != rows[j].id)
  }

  /** The row with the given id replaced by `v`, every other row as it was. */
  function ReplaceResource(rows: seq<Resource>, id: int, v: Resource): (r: seq<Resource>)
    ensures |r| == |rows|
    ensures forall k :: 0 <= k < |rows| ==> r[k] == if rows[k].id == id then v else rows[k]
  {
    seq(|rows|, k requires 0 <= k < |rows| => if rows[k].id == id then v else rows[k])
  }

  /** The record `create_resource` stores for an accepted form. */
  function CreatedResource(id: int, creator: User, form: ResourceForm, upload: Option<Upload>, storedImage: string): Resource {
    Resource(id, Strip(form.name), Some(Strip(form.description)), Strip(form.location), Strip(form.resourceType),
      CreateCapacity(form.capacity), Available(form), false, RESOURCE_PUBLISHED,
      if ImageGiven(upload) then Some(storedImage) else None, creator.id)
  }

  /** The record after `edit_resource` assigns the fields of an accepted form. */
  function EditedResource(r: Resource, form: ResourceForm, upload: Option<Upload>, storedImage: string): Resource {
    r.(name := Strip(form.name), description := Some(Strip(form.description)),
       resourceType := Strip(form.resourceType), location := Strip(form.location),
       capacity := EditCapacity(form.capacity, r.capacity), isAvailable := Available(form),
       imagePath := if ImageGiven(upload) then Some(storedImage) else r.imagePath)
  }

  /** A stored resource meets the checks: validation guards what is written. */
  lemma CreatedMeetsChecks(id: int, creator: User, form: ResourceForm, upload: Option<Upload>, storedImage: string)
    requires CreateErrors(form, upload) == []
    ensures var r := CreatedResource(id, creator, form, upload, storedImage);
      |r.name| >= 3 && r.description.Some? && |r.description.value| >= 10 &&
      r.resourceType != "" && r.location != "" &&
      (r.capacity.Some? ==> r.capacity.value >= 1) &&
      r.status == RESOURCE_PUBLISHED && r.creatorId == creator.id && r.id == id
  {
    ReportsEmpty(FormChecks(form, upload), 1, CapacityBelowOne);
  }

  /** An accepted edit keeps the key, the creator and the status, and meets edit's checks. */
  lemma EditedMeetsChecks(r: Resource, form: ResourceForm, upload: Option<Upload>, storedImage: string)
    requires EditErrors(form, upload) == []
    ensures var e := EditedResource(r, form, upload, storedImage);
      e.id == r.id && e.creatorId == r.creatorId && e.status == r.status && e.requiresApproval == r.requiresApproval &&
      |e.name| >= 3 && e.description.Some? && |e.description.value| >= 10 &&
      e.resourceType != "" && e.location != "" &&
      (e.capacity == r.capacity || (e.capacity.Some? && e.capacity.value >= 0)) &&
      (!ImageGiven(upload) ==> e.imagePath == r.imagePath)
  {
    ReportsEmpty(FormChecks(form, upload), 0, CapacityNegative);
  }

  /** `create_resource`: the form's messages, or the record stored under the next key. */
  function CreateDecision(nextId: int, creator: User, form: ResourceForm, upload: Option<Upload>, storedImage: string)
    : (r: Result<Resource, seq<FormError>>)
    ensures r.Err? <==> CreateErrors(form, upload) != []
    ensures r.Err? ==> r.error == CreateErrors(form, upload)
    ensures r.Ok? ==> r.value == CreatedResource(nextId, creator, form, upload, storedImage)
  {
    var errors := CreateErrors(form, upload);
    if errors != [] then Err(errors) else Ok(CreatedResource(nextId, creator, form, upload, storedImage))
  }

  /** What `edit_resource` and `delete_resource` end in. */
  datatype ChangeOutcome = NotFound | Forbidden | Rejected(errors: seq<FormError>) | Changed(r: Resource)

  /** `edit_resource` with the intended owner guard. */
  function EditDecision(rows: seq<Resource>, caller: User, id: int, form: ResourceForm, upload: Option<Upload>, storedImage: string): (o: ChangeOutcome)
    ensures o == NotFound <==> !HasResource(rows, id)
    ensures o == Forbidden <==> HasResource(rows, id) && Refused(FindResource(rows, id).value, caller)
    ensures o.Rejected? <==>
      HasResource(rows, id) && !Refused(FindResource(rows, id).value, caller) && EditErrors(form, upload) != []
    ensures o.Rejected? ==> o.errors == EditErrors(form, upload)
    ensures o.Changed? ==> o.r == EditedResource(FindResource(rows, id).value, form, upload, storedImage)
  {
    var found := FindResource(rows, id);
    if found.None? then NotFound
    else if Refused(found.value, caller) then Forbidden
    else if EditErrors(form, upload) != [] then Rejected(EditErrors(form, upload))
    else Changed(EditedResource(found.value, form, upload, storedImage))
  }

  /** `delete_resource` with the intended owner guard. */
  function DeleteDecision(rows: seq<Resource>, caller: User, id: int): (o: ChangeOutcome)
    ensures o == NotFound <==> !HasResource(rows, id)
    ensures o == Forbidden <==> HasResource(rows, id) && Refused(FindResource(rows, id).value, caller)
    ensures o.Changed? <==> HasResource(rows, id) && !Refused(FindResource(rows, id).value, caller)
    ensures o.Changed? ==> o.r == FindResource(rows, id).value
  {
    var found := FindResource(rows, id);
    if found.None? then NotFound
    else if Refused(found.value, caller) then Forbidden
    else Changed(found.value)
  }

  /** The `resources` table: its rows and the next primary key. */
  class ResourceTable {
    var rows: seq<Resource>
    var nextId: int

    ghost predicate Valid()
      reads this
    {
      ResourcesValid(rows, nextId)
    }

    constructor ()
      ensures Valid() && rows == [] && nextId == 1
    {
      rows := [];
      nextId := 1;
    }

    /** `db.session.add` and `commit`: the row is stored under the next key. */
    method Add(v: Resource) returns (stored: Resource)
      requires Valid()
      modifies this
      ensures Valid()
      ensures stored == v.(id := old(nextId))
      ensures rows == old(rows) + [stored] && nextId == old(nextId) + 1
    {
      stored := v.(id := nextId);
      AppendKeepsValid(rows, nextId, stored);
      rows := rows + [stored];
      nextId := nextId + 1;
    }

    /** Assigning the fields of a stored resource and committing. */
    method Replace(v: Resource)
      requires Valid()
      modifies this
      ensures Valid() && nextId == old(nextId)
      ensures rows == ReplaceResource(old(rows), v.id, v)
    {
      ReplaceKeepsValid(rows, nextId, v.id, v);
      rows := ReplaceResource(rows, v.id, v);
    }

    /** `db.session.delete` and `commit`. */
    method Remove(id: int)
      requires Valid()
      modifies this
      ensures Valid() && nextId == old(nextId)
      ensures rows == Filter(old(rows), (v: Resource) => v.id != id)
      ensures !HasResource(rows, id)
    {
      FilterKeepsValid(rows, nextId, (v: Resource) => v.id != id);
      rows := Filter(rows, (v: Resource) => v.id != id);
    }
  }

  /**
   * `create_resource`: any signed-in user; a form that fails a check stores
   * nothing, an accepted one is stored published with the caller as creator.
   * `storedImage` is the path `save_uploaded_file` gives a chosen file.
   */
  method CreateResource(table: ResourceTable, creator: User, form: ResourceForm, upload: Option<Upload>, storedImage: string)
    returns (r: Result<Resource, seq<FormError>>)
    requires table.Valid()
    modifies table
    ensures table.Valid()
    ensures r == CreateDecision(old(table.nextId), creator, form, upload, storedImage)
    ensures table.rows == if r.Ok? then old(table.rows) + [r.value] else old(table.rows)
    ensures table.nextId == if r.Ok? then old(table.nextId) + 1 else old(table.nextId)
  {
    var errors, cap := ValidateCreate(form, upload);
    if errors != [] {
      return Err(errors);
    }
    var imagePath := if ImageGiven(upload) then Some(storedImage) else None;
    var v := Resource(0, Strip(form.name), Some(Strip(form.description)), Strip(form.location),
      Strip(form.resourceType), cap, Available(form), false, RESOURCE_PUBLISHED, imagePath, creator.id);
    var stored := table.Add(v);
    return Ok(stored);
  }

  /**
   * `edit_resource`: the lookup, the owner guard, the checks, and then the
   * assignment of the resource's fields.
   */
  method EditResource(table: ResourceTable, caller: User, id: int, form: ResourceForm, upload: Option<Upload>, storedImage: string)
    returns (o: ChangeOutcome)
    requires table.Valid()
    modifies table
    ensures table.Valid() && table.nextId == old(table.nextId)
    ensures o == EditDecision(old(table.rows), caller, id, form, upload, storedImage)
    ensures table.rows == if o.Changed? then ReplaceResource(old(table.rows), id, o.r) else old(table.rows)
  {
    var found := FindResource(table.rows, id);
    if found.None? {
      return NotFound;
    }
    var resource := found.value;
    if resource.creatorId != caller.id && !IsAdmin(caller) {
      return Forbidden;
    }
    var errors, cap := ValidateEdit(form, upload, resource.capacity);
    var imagePath := resource.imagePath;
    if ImageGiven(upload) && !ImageRefused(upload.value) {
      imagePath := Some(storedImage);
    }
    if errors != [] {
      return Rejected(errors);
    }
    resource := resource.(name := Strip(form.name), description := Some(Strip(form.description)),
      resourceType := Strip(form.resourceType), location := Strip(form.location),
      capacity := cap, isAvailable := Available(form), imagePath := imagePath);
    table.Replace(resource);
    return Changed(resource);
  }

  /** `delete_resource`: the lookup, the owner guard, and the removal of the row. */
  method DeleteResource(table: ResourceTable, caller: User, id: int) returns (o: ChangeOutcome)
    requires table.Valid()
    modifies table
    ensures table.Valid() && table.nextId == old(table.nextId)
    ensures o == DeleteDecision(old(table.rows), caller, id)
    ensures table.rows == if o.Changed? then Filter(old(table.rows), (v: Resource) => v.id != id) else old(table.rows)
    ensures o.Changed? ==> !HasResource(table.rows, id)
  {
    var found := FindResource(table.rows, id);
    if found.None? {
      return NotFound;
    }
    if found.value.creatorId != caller.id && !IsAdmin(caller) {
      return Forbidden;
    }
    table.Remove(id);
    return Changed(found.value);
  }

  /** A row with the next key may be appended. */
  lemma AppendKeepsValid(rows: seq<Resource>, nextId: int, v: Resource)
    requires ResourcesValid(rows, nextId) && v.id == nextId
    ensures ResourcesValid(rows + [v], nextId + 1)
  {
  }

  /** Replacing a row by one with the same key keeps the keys valid. */
  lemma ReplaceKeepsValid(rows: seq<Resource>, nextId: int, id: int, v: Resource)
    requires ResourcesValid(rows, nextId) && v.id == id
    ensures ResourcesValid(ReplaceResource(rows, id, v), nextId)
  {
  }

  /** Any filter of a valid table is valid: it keeps a subsequence of the rows. */
  lemma FilterKeepsValid(rows: seq<Resource>, nextId: int, p: Resource -> bool)
    requires ResourcesValid(rows, nextId)
    ensures ResourcesValid(Filter(rows, p), nextId)
  {
    FilterPairwise(rows, p, (a: Resource, b: Resource) => a.id != b.id);
    var r := Filter(rows, p);
    forall k | 0 <= k < |r| ensures 1 <= r[k].id < nextId {
      assert r[k] in rows;
    }
  }
}
