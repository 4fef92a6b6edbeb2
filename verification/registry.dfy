/** The registry client's pure parts: flattening a search response of the
    Brønnøysund Register Centre into fixed 15-column rows, and choosing the
    bulk-download URL for a file format. A row is the dictionary the source
    builds, so its cells are decoded JSON values; the exceptions the source
    can raise on an unexpected tree are `Failure` values. */
module Registry {
  import opened Wrappers
  import opened PyStr
  import opened PyDict
  import opened Json

  const BaseUrl := "https://data.brreg.no"

  // ---------------------------------------------------------------------
  // Bulk-download URLs

  /** The two bulk listings with a format choice. */
  datatype Listing = Entities | SubEntities

  /** What a file-format argument selects; every other string falls back to
      the plain JSON download. */
  datatype FormatClass = Csv | Spreadsheet | Plain

  function ClassOf(fileFormat: string): FormatClass {
    if fileFormat == "csv" then Csv else if fileFormat == "xlsx" then Spreadsheet else Plain
  }

  function ListingUrl(listing: Listing): string {
    match listing
    case Entities => BaseUrl + "/enhetsregisteret/api/enheter/lastned"
    case SubEntities => BaseUrl + "/enhetsregisteret/api/underenheter/lastned"
  }

  /** The path appended for a format. */
  function FormatSuffix(fileFormat: string): (suffix: string)
    ensures ClassOf(fileFormat) == Csv ==> suffix == "/csv"
    ensures ClassOf(fileFormat) == Spreadsheet ==> suffix == "/regneark"
    ensures suffix == "" <==> ClassOf(fileFormat) == Plain
  {
    if fileFormat == "csv" then "/csv"
    else if fileFormat == "xlsx" then "/regneark"
    else ""
  }

  /** The URL `download_entities` or `download_sub_entities` requests. */
  function DownloadUrl(listing: Listing, fileFormat: string): (url: string)
    ensures |url| >= |ListingUrl(listing)| && url[..|ListingUrl(listing)|] == ListingUrl(listing)
  {
    ListingUrl(listing) + FormatSuffix(fileFormat)
  }

  /** Two downloads request the same URL exactly when they are for the same
      listing and their formats fall in the same class: "csv" and "xlsx"
      each have their own URL and every other format gets the plain one. */
  lemma DownloadUrlInjective(l1: Listing, f1: string, l2: Listing, f2: string)
    ensures DownloadUrl(l1, f1) == DownloadUrl(l2, f2) <==> l1 == l2 && ClassOf(f1) == ClassOf(f2)
  {
    var u1, u2 := DownloadUrl(l1, f1), DownloadUrl(l2, f2);
    ListingMark(l1, f1);
    ListingMark(l2, f2);
    if u1 == u2 {
      var n := |ListingUrl(l1)|;
      assert FormatSuffix(f1) == u1[n..] == u2[n..] == FormatSuffix(f2);
    }
  }

  /** The character that tells the two listings apart. */
  lemma ListingMark(listing: Listing, fileFormat: string)
    ensures |DownloadUrl(listing, fileFormat)| > 43
    ensures DownloadUrl(listing, fileFormat)[43] == if listing == Entities then 'e' else 'u'
  {
  }

  // ---------------------------------------------------------------------
  // Flattening a search response

  /** The row columns, in the order the source writes them; the address
      column is `Columns[5]`. */
  const OrgNumber := "organisasjonsnummer"
  const OrgName := "navn"
  const OrgForm := "organisasjonsform"
  const RegisteredOn := "registreringsdatoEnhetsregisteret"
  const IndustryCode := "naeringskode1"
  const BusinessAddress := "forretningsadresse"
  const PostCode := "postnummer"
  const PostTown := "poststed"
  const Municipality := "kommune"
  const MunicipalityNumber := "kommunenummer"
  const Email := "epostadresse"
  const Phone := "telefon"
  const Homepage := "hjemmeside"
  const FoundedOn := "stiftelsesdato"
  const LastAccounts := "sisteInnsendteAarsregnskap"
  const Columns: seq<string> := [
    OrgNumber, OrgName, OrgForm, RegisteredOn, IndustryCode, BusinessAddress,
    PostCode, PostTown, Municipality, MunicipalityNumber, Email,
    Phone, Homepage, FoundedOn, LastAccounts]

  /** The description field of the nested organisation form and industry
      code, and the address lines of the business address. */
  const Description := "beskrivelse"
  const AddressLines := "adresse"

  type Row = Dict<Json>

  const Blank := JStr("")

  /** The value stored under `key`, or `absent` when there is none. */
  function ValueOr(obj: Dict<Json>, key: string, absent: Json): Json {
    match Get(obj, key)
    case Some(v) => v
    case None => absent
  }

  /** `obj.get(key, '')` on an object. */
  function TopField(obj: Dict<Json>, key: string): Json {
    ValueOr(obj, key, Blank)
  }

  /** The row holding `cells` under the column names, in column order. */
  function MakeRow(cells: seq<Json>): (row: Row)
    requires |cells| == |Columns|
    ensures Keys(row) == Columns
    ensures forall k :: 0 <= k < |cells| ==> row[k].value == cells[k]
  {
    seq(|cells|, k requires 0 <= k < |cells| => Entry(Columns[k], cells[k]))
  }

  /** What `for entity in entities` draws: a list's items, a string's
      characters, a dictionary's keys; other values are not iterable. */
  function Iterate(j: Json): (r: Result<seq<Json>, PyError>)
    ensures j.JArr? ==> r == Success(j.items)
    ensures j.JObj? ==> r.Success? && |r.value| == |j.members|
                        && forall i :: 0 <= i < |j.members| ==> r.value[i] == JStr(j.members[i].key)
    ensures j.JStr? ==> r.Success? && |r.value| == |j.s|
                        && forall i :: 0 <= i < |j.s| ==> r.value[i] == JStr([j.s[i]])
    ensures j.JNull? || j.JBool? || j.JInt? ==> r == Failure(TypeError)
  {
    match j
    case JArr(items) => Success(items)
    case JObj(members) => Success(seq(|members|, i requires 0 <= i < |members| => JStr(members[i].key)))
    case JStr(s) => Success(seq(|s|, i requires 0 <= i < |s| => JStr([s[i]])))
    case _ => Failure(TypeError)
  }

  /** `entity.get(key, {}).get(inner, '')`: the outer value must be an
      object when present. */
  function Nested(entity: Json, key: string, inner: string): Result<Json, PyError> {
    var outer :- GetOr(entity, key, JObj(Empty()));
    GetOr(outer, inner, Blank)
  }

  /** The five cells before the address: number, name, organisation form,
      registration date, industry code. */
  function LeadingCells(entity: Dict<Json>, form: Json, industry: Json): (cells: seq<Json>)
    ensures |cells| == 5
  {
    [TopField(entity, OrgNumber), TopField(entity, OrgName), form,
     TopField(entity, RegisteredOn), industry]
  }

  /** The nine cells after the address: four fields of the business
      address, then contact details and dates. */
  function TrailingCells(entity: Dict<Json>, office: Dict<Json>): (cells: seq<Json>)
    ensures |cells| == 9
  {
    [TopField(office, PostCode), TopField(office, PostTown),
     TopField(office, Municipality), TopField(office, MunicipalityNumber),
     TopField(entity, Email), TopField(entity, Phone), TopField(entity, Homepage),
     TopField(entity, FoundedOn), TopField(entity, LastAccounts)]
  }

  /** One entity as a row. The cells are computed in column order, so the
      first failing cell decides the exception: calling `get` on anything but
      an object raises AttributeError, joining anything but strings raises
      TypeError. */
  function Flatten(entity: Json): (r: Result<Row, PyError>)
    ensures r.Success? ==> Keys(r.value) == Columns
  {
    if !entity.JObj? then Failure(AttributeError)
    else
      var e := entity.members;
      var form :- Nested(entity, OrgForm, Description);
      var industry :- Nested(entity, IndustryCode, Description);
      var office := ValueOr(e, BusinessAddress, JObj(Empty()));
      if !office.JObj? then Failure(AttributeError)
      else
        var lines :- StringItems(ValueOr(office.members, AddressLines, JArr([])));
        Success(MakeRow(LeadingCells(e, form, industry) + [JStr(Join(lines, ", "))]
                        + TrailingCells(e, office.members)))
  }

  /** The loop body over all entities; the first failing entity raises. */
  function FlattenAll(entities: seq<Json>): (r: Result<seq<Row>, PyError>)
    ensures r.Success? ==> |r.value| == |entities|
                           && forall i :: 0 <= i < |entities| ==> Flatten(entities[i]) == Success(r.value[i])
    ensures r.Failure? ==> exists i :: 0 <= i < |entities| && Flatten(entities[i]).Failure?
    decreases |entities|
  {
    if |entities| == 0 then Success([])
    else
      var row :- Flatten(entities[0]);
      var rest :- FlattenAll(entities[1..]);
      Success([row] + rest)
  }

  /** `json_data['_embedded']['enheter']`, iterated: a missing key raises
      KeyError naming it, and the listing must be iterable. */
  function EntitiesOf(data: Json): (r: Result<seq<Json>, PyError>)
    ensures data.JObj? && "_embedded" !in Keys(data.members) ==> r == Failure(KeyError("_embedded"))
    ensures r.Success? ==> Index(data, "_embedded").Success?
                           && Index(Index(data, "_embedded").value, "enheter").Success?
                           && Iterate(Index(Index(data, "_embedded").value, "enheter").value) == r
    ensures Index(data, "_embedded").Success? && Index(Index(data, "_embedded").value, "enheter").Success?
            && Index(Index(data, "_embedded").value, "enheter").value.JArr? ==>
              r == Success(Index(Index(data, "_embedded").value, "enheter").value.items)
  {
    var embedded :- Index(data, "_embedded");
    var listing :- Index(embedded, "enheter");
    Iterate(listing)
  }

  /** `extract_data`: a falsy response gives no rows; otherwise one row per
      listed entity, in order, each with the same 15 columns. */
  function ExtractData(data: Json): (r: Result<seq<Row>, PyError>)
    ensures !Truthy(data) ==> r == Success([])
    ensures r.Success? ==> forall i :: 0 <= i < |r.value| ==> Keys(r.value[i]) == Columns
  {
    if !Truthy(data) then Success([])
    else
      var entities :- EntitiesOf(data);
      FlattenAll(entities)
  }

  // ---------------------------------------------------------------------
  // The rows, stated field by field

  /** A nested field may be absent, but when present it must be an object. */
  predicate NestedOk(entity: Dict<Json>, key: string) {
    ValueOr(entity, key, JObj(Empty())).JObj?
  }

  /** What `', '.join` accepts here: a list of strings, a string, an object. */
  predicate Joinable(lines: Json) {
    match lines
    case JArr(items) => forall i :: 0 <= i < |items| ==> items[i].JStr?
    case JStr(_) => true
    case JObj(_) => true
    case _ => false
  }

  /** The entities the source flattens without raising. */
  predicate WellFormed(entity: Json) {
    entity.JObj?
    && NestedOk(entity.members, OrgForm)
    && NestedOk(entity.members, IndustryCode)
    && NestedOk(entity.members, BusinessAddress)
    && Joinable(AddressValue(entity.members))
  }

  /** A field of a nested object, `''` when the object or the field is absent. */
  function InnerField(entity: Dict<Json>, key: string, inner: string): Json
    requires NestedOk(entity, key)
  {
    ValueOr(ValueOr(entity, key, JObj(Empty())).members, inner, Blank)
  }

  /** The strings `', '.join` draws from a joinable value: the list items,
      the characters of a string, or the keys of an object. */
  function JoinParts(lines: Json): seq<string>
    requires Joinable(lines)
  {
    match lines
    case JArr(items) => seq(|items|, i requires 0 <= i < |items| => items[i].s)
    case JStr(s) => seq(|s|, i requires 0 <= i < |s| => [s[i]])
    case JObj(members) => Keys(members)
  }

  lemma StringItemsJoinable(lines: Json)
    requires Joinable(lines)
    ensures StringItems(lines) == Success(JoinParts(lines))
  {
    match lines
    case JArr(items) =>
      assert StringItems(lines).value == JoinParts(lines);
    case JStr(s) =>
      assert StringItems(lines).value == JoinParts(lines);
    case JObj(members) =>
  }

  /** The address value of an entity: its `adresse`, an empty list when the
      address or the field is absent. */
  function AddressValue(entity: Dict<Json>): Json
    requires NestedOk(entity, BusinessAddress)
  {
    ValueOr(ValueOr(entity, BusinessAddress, JObj(Empty())).members, AddressLines, JArr([]))
  }

  /** The address lines joined with ", ". */
  function AddressCell(entity: Dict<Json>): Json
    requires NestedOk(entity, BusinessAddress) && Joinable(AddressValue(entity))
  {
    JStr(Join(JoinParts(AddressValue(entity)), ", "))
  }

  /** The row the source builds for a well-formed entity, column by column. */
  predicate RowOf(entity: Json, row: Row)
    requires WellFormed(entity)
  {
    Keys(row) == Columns && forall k :: 0 <= k < |Columns| ==> row[k].value == ExpectedCells(entity)[k]
  }

  lemma NestedOfWellFormed(e: Dict<Json>, key: string, inner: string)
    requires NestedOk(e, key)
    ensures Nested(JObj(e), key, inner) == Success(InnerField(e, key, inner))
  {
  }

  /** The cells of a well-formed entity, in column order: a top-level
      field, or a field of the organisation form, the industry code or the
      business address, is `''` when absent; the address cell joins the
      address lines with ", ". */
  function ExpectedCells(entity: Json): (cells: seq<Json>)
    requires WellFormed(entity)
    ensures |cells| == |Columns|
  {
    var e := entity.members;
    var office := ValueOr(e, BusinessAddress, JObj(Empty())).members;
    [TopField(e, OrgNumber), TopField(e, OrgName), InnerField(e, OrgForm, Description),
     TopField(e, RegisteredOn), InnerField(e, IndustryCode, Description), AddressCell(e),
     TopField(office, PostCode), TopField(office, PostTown), TopField(office, Municipality),
     TopField(office, MunicipalityNumber), TopField(e, Email), TopField(e, Phone),
     TopField(e, Homepage), TopField(e, FoundedOn), TopField(e, LastAccounts)]
  }

  /** Fifteen values listed, read back by index, and split around the
      sixth. */
  lemma FifteenCells<T>(a0: T, a1: T, a2: T, a3: T, a4: T, a5: T, a6: T, a7: T,
                        a8: T, a9: T, a10: T, a11: T, a12: T, a13: T, a14: T)
    ensures var s := [a0, a1, a2, a3, a4, a5, a6, a7, a8, a9, a10, a11, a12, a13, a14];
            && s[0] == a0 && s[1] == a1 && s[2] == a2 && s[3] == a3 && s[4] == a4
            && s[5] == a5 && s[6] == a6 && s[7] == a7 && s[8] == a8 && s[9] == a9
            && s[10] == a10 && s[11] == a11 && s[12] == a12 && s[13] == a13 && s[14] == a14
            && s == [a0, a1, a2, a3, a4] + [a5] + [a6, a7, a8, a9, a10, a11, a12, a13, a14]
  {
  }

  /** The cells of a well-formed entity, one by one. */
  lemma CellsOf(entity: Json)
    requires WellFormed(entity)
    ensures var e := entity.members;
            var office := ValueOr(e, BusinessAddress, JObj(Empty())).members;
            var cells := ExpectedCells(entity);
            && cells[0] == TopField(e, OrgNumber) && cells[1] == TopField(e, OrgName)
            && cells[2] == InnerField(e, OrgForm, Description) && cells[3] == TopField(e, RegisteredOn)
            && cells[4] == InnerField(e, IndustryCode, Description) && cells[5] == AddressCell(e)
            && cells[6] == TopField(office, PostCode) && cells[7] == TopField(office, PostTown)
            && cells[8] == TopField(office, Municipality) && cells[9] == TopField(office, MunicipalityNumber)
            && cells[10] == TopField(e, Email) && cells[11] == TopField(e, Phone)
            && cells[12] == TopField(e, Homepage) && cells[13] == TopField(e, FoundedOn)
            && cells[14] == TopField(e, LastAccounts)
  {
    var e := entity.members;
    var office := ValueOr(e, BusinessAddress, JObj(Empty())).members;
    FifteenCells(TopField(e, OrgNumber), TopField(e, OrgName), InnerField(e, OrgForm, Description),
     TopField(e, RegisteredOn), InnerField(e, IndustryCode, Description), AddressCell(e),
     TopField(office, PostCode), TopField(office, PostTown), TopField(office, Municipality),
     TopField(office, MunicipalityNumber), TopField(e, Email), TopField(e, Phone),
     TopField(e, Homepage), TopField(e, FoundedOn), TopField(e, LastAccounts));
  }

  lemma FlattenCells(entity: Json)
    requires WellFormed(entity)
    ensures Flatten(entity) == Success(MakeRow(ExpectedCells(entity)))
  {
    var e := entity.members;
    NestedOfWellFormed(e, OrgForm, Description);
    NestedOfWellFormed(e, IndustryCode, Description);
    var office := ValueOr(e, BusinessAddress, JObj(Empty()));
    var lines := ValueOr(office.members, AddressLines, JArr([]));
    StringItemsJoinable(lines);
    FifteenCells(TopField(e, OrgNumber), TopField(e, OrgName), InnerField(e, OrgForm, Description),
     TopField(e, RegisteredOn), InnerField(e, IndustryCode, Description), AddressCell(e),
     TopField(office.members, PostCode), TopField(office.members, PostTown), TopField(office.members, Municipality),
     TopField(office.members, MunicipalityNumber), TopField(e, Email), TopField(e, Phone),
     TopField(e, Homepage), TopField(e, FoundedOn), TopField(e, LastAccounts));
  }

  /** A well-formed entity flattens without raising, to the row stated field
      by field. */
  lemma FlattenWellFormed(entity: Json)
    requires WellFormed(entity)
    ensures Flatten(entity).Success? && RowOf(entity, Flatten(entity).value)
  {
    FlattenCells(entity);
  }

  /** Any other entity raises. */
  lemma FlattenIllFormed(entity: Json)
    requires !WellFormed(entity)
    ensures Flatten(entity).Failure?
  {
    if entity.JObj? {
      var e := entity.members;
      if NestedOk(e, OrgForm) && NestedOk(e, IndustryCode) && NestedOk(e, BusinessAddress) {
        var office := ValueOr(e, BusinessAddress, JObj(Empty()));
        assert StringItems(ValueOr(office.members, AddressLines, JArr([]))).Failure?;
      }
    }
  }

  /** The flattening succeeds exactly when the listing can be reached and
      iterated and every entity in it is well formed; the rows then match the
      entities one to one, in order. */
  lemma ExtractDataRows(data: Json)
    requires Truthy(data)
    ensures ExtractData(data).Success? <==>
              EntitiesOf(data).Success? && forall i :: 0 <= i < |EntitiesOf(data).value| ==> WellFormed(EntitiesOf(data).value[i])
    ensures ExtractData(data).Success? ==>
              var entities := EntitiesOf(data).value;
              var rows := ExtractData(data).value;
              |rows| == |entities| && forall i :: 0 <= i < |entities| ==> WellFormed(entities[i]) && RowOf(entities[i], rows[i])
  {
    if EntitiesOf(data).Success? {
      var entities := EntitiesOf(data).value;
      if forall i :: 0 <= i < |entities| ==> WellFormed(entities[i]) {
        FlattenAllWellFormed(entities);
      } else {
        var i :| 0 <= i < |entities| && !WellFormed(entities[i]);
        FlattenIllFormed(entities[i]);
        FlattenAllStops(entities, i);
      }
      if ExtractData(data).Success? {
        var rows := ExtractData(data).value;
        forall i | 0 <= i < |entities| ensures WellFormed(entities[i]) && RowOf(entities[i], rows[i]) {
          FlattenWellFormed(entities[i]);
        }
      }
    }
  }

  lemma {:induction false} FlattenAllWellFormed(entities: seq<Json>)
    requires forall i :: 0 <= i < |entities| ==> WellFormed(entities[i])
    ensures FlattenAll(entities).Success?
    decreases |entities|
  {
    if |entities| > 0 {
      FlattenWellFormed(entities[0]);
      FlattenAllWellFormed(entities[1..]);
    }
  }

  lemma {:induction false} FlattenAllStops(entities: seq<Json>, i: nat)
    requires i < |entities| && Flatten(entities[i]).Failure?
    ensures FlattenAll(entities).Failure?
    decreases |entities|
  {
    if i > 0 && Flatten(entities[0]).Success? {
      FlattenAllStops(entities[1..], i - 1);
    }
  }

  /** Each column name at its index. */
  lemma ColumnNames()
    ensures && Columns[0] == OrgNumber && Columns[1] == OrgName && Columns[2] == OrgForm
            && Columns[3] == RegisteredOn && Columns[4] == IndustryCode && Columns[5] == BusinessAddress
            && Columns[6] == PostCode && Columns[7] == PostTown && Columns[8] == Municipality
            && Columns[9] == MunicipalityNumber && Columns[10] == Email && Columns[11] == Phone
            && Columns[12] == Homepage && Columns[13] == FoundedOn && Columns[14] == LastAccounts
  {
    FifteenCells(OrgNumber, OrgName, OrgForm, RegisteredOn, IndustryCode, BusinessAddress,
                 PostCode, PostTown, Municipality, MunicipalityNumber, Email,
                 Phone, Homepage, FoundedOn, LastAccounts);
  }

  lemma ColumnsDistinct()
    ensures Distinct(Columns)
  {
  }

  /** The cell of column `k` is found under the column's name. */
  lemma CellLookup(entity: Json, k: nat)
    requires WellFormed(entity) && k < |Columns|
    ensures Flatten(entity).Success? && Get(Flatten(entity).value, Columns[k]) == Some(ExpectedCells(entity)[k])
  {
    FlattenCells(entity);
    var row := MakeRow(ExpectedCells(entity));
    ColumnsDistinct();
    GetAt(row, k);
  }

  lemma ColumnHolds(entity: Json, k: nat, name: string, cell: Json)
    requires WellFormed(entity) && k < |Columns|
    requires Columns[k] == name && ExpectedCells(entity)[k] == cell
    ensures Flatten(entity).Success? && Get(Flatten(entity).value, name) == Some(cell)
  {
    CellLookup(entity, k);
  }

  /** The top-level fields, looked up by name in the row: each is copied
      under its own name, `''` when the entity lacks it. */
  lemma FlattenTopFields(entity: Json)
    requires WellFormed(entity)
    ensures Flatten(entity).Success?
    ensures var row := Flatten(entity).value;
            var e := entity.members;
            && Get(row, OrgNumber) == Some(ValueOr(e, OrgNumber, Blank))
            && Get(row, OrgName) == Some(ValueOr(e, OrgName, Blank))
            && Get(row, RegisteredOn) == Some(ValueOr(e, RegisteredOn, Blank))
            && Get(row, Email) == Some(ValueOr(e, Email, Blank))
            && Get(row, Phone) == Some(ValueOr(e, Phone, Blank))
            && Get(row, Homepage) == Some(ValueOr(e, Homepage, Blank))
            && Get(row, FoundedOn) == Some(ValueOr(e, FoundedOn, Blank))
            && Get(row, LastAccounts) == Some(ValueOr(e, LastAccounts, Blank))
  {
    CellsOf(entity);
    ColumnNames();
    var e := entity.members;
    ColumnHolds(entity, 0, OrgNumber, ValueOr(e, OrgNumber, Blank));
    ColumnHolds(entity, 1, OrgName, ValueOr(e, OrgName, Blank));
    ColumnHolds(entity, 3, RegisteredOn, ValueOr(e, RegisteredOn, Blank));
    ColumnHolds(entity, 10, Email, ValueOr(e, Email, Blank));
    ColumnHolds(entity, 11, Phone, ValueOr(e, Phone, Blank));
    ColumnHolds(entity, 12, Homepage, ValueOr(e, Homepage, Blank));
    ColumnHolds(entity, 13, FoundedOn, ValueOr(e, FoundedOn, Blank));
    ColumnHolds(entity, 14, LastAccounts, ValueOr(e, LastAccounts, Blank));
  }

  /** The business-address fields, looked up by name in the row: each is
      copied from `forretningsadresse`, `''` when it or the field is absent. */
  lemma FlattenOfficeFields(entity: Json)
    requires WellFormed(entity)
    ensures Flatten(entity).Success?
    ensures var row := Flatten(entity).value;
            var office := ValueOr(entity.members, BusinessAddress, JObj(Empty())).members;
            && Get(row, PostCode) == Some(ValueOr(office, PostCode, Blank))
            && Get(row, PostTown) == Some(ValueOr(office, PostTown, Blank))
            && Get(row, Municipality) == Some(ValueOr(office, Municipality, Blank))
            && Get(row, MunicipalityNumber) == Some(ValueOr(office, MunicipalityNumber, Blank))
  {
    CellsOf(entity);
    ColumnNames();
    var office := ValueOr(entity.members, BusinessAddress, JObj(Empty())).members;
    ColumnHolds(entity, 6, PostCode, ValueOr(office, PostCode, Blank));
    ColumnHolds(entity, 7, PostTown, ValueOr(office, PostTown, Blank));
    ColumnHolds(entity, 8, Municipality, ValueOr(office, Municipality, Blank));
    ColumnHolds(entity, 9, MunicipalityNumber, ValueOr(office, MunicipalityNumber, Blank));
  }

  /** The three nested columns, looked up by name in the row: the two
      descriptions, and the address lines joined with ", ". */
  lemma FlattenNestedFields(entity: Json)
    requires WellFormed(entity)
    ensures Flatten(entity).Success?
    ensures var row := Flatten(entity).value;
            var e := entity.members;
            && Get(row, OrgForm) == Some(InnerField(e, OrgForm, Description))
            && Get(row, IndustryCode) == Some(InnerField(e, IndustryCode, Description))
            && Get(row, BusinessAddress) == Some(AddressCell(e))
  {
    CellsOf(entity);
    ColumnNames();
    var e := entity.members;
    ColumnHolds(entity, 2, OrgForm, InnerField(e, OrgForm, Description));
    ColumnHolds(entity, 4, IndustryCode, InnerField(e, IndustryCode, Description));
    ColumnHolds(entity, 5, BusinessAddress, AddressCell(e));
  }

  /** An entity without an address, or with no address lines, gets an empty
      `forretningsadresse` cell. */
  lemma MissingAddressIsBlank(entity: Json)
    requires WellFormed(entity)
    requires AddressValue(entity.members) == JArr([])
    ensures Flatten(entity).Success? && Flatten(entity).value[5] == Entry(Columns[5], Blank)
  {
    FlattenCells(entity);
    CellsOf(entity);
    assert JoinParts(JArr([])) == [];
    var row := Flatten(entity).value;
    assert Keys(row)[5] == Columns[5];
  }
}
