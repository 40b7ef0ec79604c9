/** The flattening scenarios of the ingestion tests, as lemmas about the flattener. */
module FlattenerExamples {
  import opened Wrappers
  import opened FieldNames
  import opened JsonValues
  import opened Flattener
  import FieldNameExamples

  /**
   * The nested-object record of the ingestion tests: `id` and the `name` list
   * are kept, and the nested `details` object yields `details_publisher` and
   * `details_year` with their values.
   */
  lemma DetailsFields(ms: seq<(string, Json)>, details: seq<(string, Json)>, name: seq<Json>, price: DoubleToken)
    requires details == [("publisher", JString("Test Publisher")), ("year", JInteger(2023)), ("edition", JInteger(1))]
    requires name == [JString("Test Book 4")]
    requires ms == [("id", JString("test004")), ("cat", JArray([JString("book")])), ("name", JArray(name)),
                    ("price", JArray([JDouble(price)])), ("details", JObject(details)),
                    ("author", JArray([JString("Test Author 4")]))]
    ensures var doc := FlattenRecord(JObject(ms));
      && "id" in doc && doc["id"] == Single(Text("test004"))
      && "name" in doc && doc["name"] == Multi([Text("Test Book 4")])
      && "details" + "_" + "publisher" in doc && doc["details" + "_" + "publisher"] == Single(Text("Test Publisher"))
      && "details" + "_" + "year" in doc && doc["details" + "_" + "year"] == Single(Int(2023))
  {
    DetailsKeyed(ms, details, name, price);
    IdField(ms);
    BookList(name);
    NameList(ms, name);
    NestedDetails(ms, details);
  }

  lemma DetailsKeyed(ms: seq<(string, Json)>, details: seq<(string, Json)>, name: seq<Json>, price: DoubleToken)
    requires details == [("publisher", JString("Test Publisher")), ("year", JInteger(2023)), ("edition", JInteger(1))]
    requires ms == [("id", JString("test004")), ("cat", JArray([JString("book")])), ("name", JArray(name)),
                    ("price", JArray([JDouble(price)])), ("details", JObject(details)),
                    ("author", JArray([JString("Test Author 4")]))]
    ensures WordKeyed(ms)
  {
    assert IsWordKey("publisher") && IsWordKey("year") && IsWordKey("edition");
    assert WordKeyed(details);
    assert IsWordKey("id") && IsWordKey("cat") && IsWordKey("name");
    assert IsWordKey("price") && IsWordKey("details") && IsWordKey("author");
  }

  /** A top-level string `id` in a word-keyed record is stored as it is. */
  lemma IdField(ms: seq<(string, Json)>)
    requires WordKeyed(ms) && |ms| > 0 && ms[0] == ("id", JString("test004"))
    ensures "id" in FlattenRecord(JObject(ms)) && FlattenRecord(JObject(ms))["id"] == Single(Text("test004"))
  {
    PathLast("", ms, 0);
    WordKeyedField(ms, [0]);
  }

  /** A top-level array of scalars under a word key in a word-keyed record is stored as its list. */
  lemma NameList(ms: seq<(string, Json)>, name: seq<Json>)
    requires WordKeyed(ms) && |ms| > 2 && ms[2] == ("name", JArray(name)) && !HasContainer(name)
    ensures "name" in FlattenRecord(JObject(ms)) && FlattenRecord(JObject(ms))["name"] == Multi(ScalarList(name))
  {
    assert IsSanitized("name");
    SanitizeFixpoint("name");
    LaterSiblings(ms, 2, "", "name");
    ScalarArrayMember(ms, 2);
  }

  lemma BookList(name: seq<Json>)
    requires name == [JString("Test Book 4")]
    ensures !HasContainer(name) && ScalarList(name) == [Text("Test Book 4")]
  {
    assert ScalarList(name[1..]) == [];
  }

  /** `details_publisher` and `details_year`, two levels deep. */
  lemma NestedDetails(ms: seq<(string, Json)>, details: seq<(string, Json)>)
    requires WordKeyed(ms) && |ms| > 4 && ms[4] == ("details", JObject(details))
    requires |details| > 1 && details[0] == ("publisher", JString("Test Publisher"))
    requires details[1] == ("year", JInteger(2023))
    ensures var doc := FlattenRecord(JObject(ms));
      && "details" + "_" + "publisher" in doc && doc["details" + "_" + "publisher"] == Single(Text("Test Publisher"))
      && "details" + "_" + "year" in doc && doc["details" + "_" + "year"] == Single(Int(2023))
  {
    DetailsMember(ms, details, 0);
    DetailsMember(ms, details, 1);
    assert Convert(JInteger(2023)) == Some(Int(2023));
  }

  /** Scalar member k of the nested `details` object is stored under `details_` and its key. */
  lemma DetailsMember(ms: seq<(string, Json)>, details: seq<(string, Json)>, k: nat)
    requires WordKeyed(ms) && |ms| > 4 && ms[4] == ("details", JObject(details))
    requires k < |details| && details[k].1.IsScalar() && !details[k].1.JNull?
    ensures "details" + "_" + details[k].0 in FlattenRecord(JObject(ms))
    ensures FlattenRecord(JObject(ms))["details" + "_" + details[k].0] == Single(Convert(details[k].1).value)
  {
    PathLast("details", details, k);
    PathCons("", ms, 4, [k]);
    WordKeyedField(ms, [4] + [k]);
  }

  /**
   * The deeply nested record of the ingestion tests: its five checked leaves,
   * three to six levels deep, are stored under their key paths joined with `_`.
   */
  lemma DeepNestedField(ms: seq<(string, Json)>, metadata: seq<(string, Json)>, publication: seq<(string, Json)>,
                        publisher: seq<(string, Json)>, location: seq<(string, Json)>,
                        coordinates: seq<(string, Json)>, edition: seq<(string, Json)>, notes: seq<(string, Json)>,
                        classification: seq<(string, Json)>, secondary: seq<(string, Json)>,
                        lat: DoubleToken, lon: DoubleToken)
    requires coordinates == [("latitude", JDouble(lat)), ("longitude", JDouble(lon))]
    requires location == [("city", JString("Nestville")), ("country", JString("Nestland")),
                          ("coordinates", JObject(coordinates))]
    requires publisher == [("name", JString("Deep Nest Publishing")), ("location", JObject(location))]
    requires notes == [("condition", JString("New")), ("availability", JString("Limited"))]
    requires edition == [("number", JInteger(1)), ("type", JString("First Edition")), ("notes", JObject(notes))]
    requires publication == [("publisher", JObject(publisher)), ("year", JInteger(2023)), ("edition", JObject(edition))]
    requires secondary == [("category", JString("Nested")), ("subcategory", JString("Deep"))]
    requires classification == [("primary", JString("Test")), ("secondary", JObject(secondary))]
    requires metadata == [("publication", JObject(publication)), ("classification", JObject(classification))]
    requires ms == [("id", JString("nested001")), ("title", JString("Deeply nested document")),
                    ("metadata", JObject(metadata))]
    ensures var doc := FlattenRecord(JObject(ms));
      var pub := "metadata" + "_" + "publication";
      && pub + "_" + "publisher" + "_" + "name" in doc
      && doc[pub + "_" + "publisher" + "_" + "name"] == Single(Text("Deep Nest Publishing"))
      && pub + "_" + "publisher" + "_" + "location" + "_" + "city" in doc
      && doc[pub + "_" + "publisher" + "_" + "location" + "_" + "city"] == Single(Text("Nestville"))
      && pub + "_" + "publisher" + "_" + "location" + "_" + "coordinates" + "_" + "latitude" in doc
      && doc[pub + "_" + "publisher" + "_" + "location" + "_" + "coordinates" + "_" + "latitude"] == Single(Double(lat))
      && pub + "_" + "edition" + "_" + "notes" + "_" + "condition" in doc
      && doc[pub + "_" + "edition" + "_" + "notes" + "_" + "condition"] == Single(Text("New"))
      && "metadata" + "_" + "classification" + "_" + "secondary" + "_" + "subcategory" in doc
      && doc["metadata" + "_" + "classification" + "_" + "secondary" + "_" + "subcategory"] == Single(Text("Deep"))
  {
    PublicationKeyed(publication, publisher, location, coordinates, edition, notes, lat, lon);
    ClassificationKeyed(classification, secondary);
    RecordKeyed(ms, metadata, publication, classification);
    PublisherFields(ms, metadata, publication, publisher, location, coordinates, lat);
    ConditionField(ms, metadata, publication, edition, notes);
    SubcategoryField(ms, metadata, classification, secondary);
  }

  lemma CoordinatesKeyed(coordinates: seq<(string, Json)>, lat: DoubleToken, lon: DoubleToken)
    requires coordinates == [("latitude", JDouble(lat)), ("longitude", JDouble(lon))]
    ensures WordKeyed(coordinates)
  {
    assert IsWordKey("latitude") && IsWordKey("longitude");
  }

  lemma LocationKeyed(location: seq<(string, Json)>, coordinates: seq<(string, Json)>)
    requires location == [("city", JString("Nestville")), ("country", JString("Nestland")),
                          ("coordinates", JObject(coordinates))]
    requires WordKeyed(coordinates)
    ensures WordKeyed(location)
  {
    assert IsWordKey("city") && IsWordKey("country") && IsWordKey("coordinates");
  }

  lemma PublisherKeyed(publisher: seq<(string, Json)>, location: seq<(string, Json)>,
                       coordinates: seq<(string, Json)>, lat: DoubleToken, lon: DoubleToken)
    requires coordinates == [("latitude", JDouble(lat)), ("longitude", JDouble(lon))]
    requires location == [("city", JString("Nestville")), ("country", JString("Nestland")),
                          ("coordinates", JObject(coordinates))]
    requires publisher == [("name", JString("Deep Nest Publishing")), ("location", JObject(location))]
    ensures WordKeyed(publisher)
  {
    CoordinatesKeyed(coordinates, lat, lon);
    LocationKeyed(location, coordinates);
    assert IsWordKey("name") && IsWordKey("location");
  }

  lemma EditionKeyed(edition: seq<(string, Json)>, notes: seq<(string, Json)>)
    requires notes == [("condition", JString("New")), ("availability", JString("Limited"))]
    requires edition == [("number", JInteger(1)), ("type", JString("First Edition")), ("notes", JObject(notes))]
    ensures WordKeyed(edition)
  {
    assert IsWordKey("condition") && IsWordKey("availability");
    assert WordKeyed(notes);
    assert IsWordKey("number") && IsWordKey("type") && IsWordKey("notes");
  }

  lemma PublicationKeyed(publication: seq<(string, Json)>, publisher: seq<(string, Json)>,
                         location: seq<(string, Json)>, coordinates: seq<(string, Json)>,
                         edition: seq<(string, Json)>, notes: seq<(string, Json)>, lat: DoubleToken, lon: DoubleToken)
    requires coordinates == [("latitude", JDouble(lat)), ("longitude", JDouble(lon))]
    requires location == [("city", JString("Nestville")), ("country", JString("Nestland")),
                          ("coordinates", JObject(coordinates))]
    requires publisher == [("name", JString("Deep Nest Publishing")), ("location", JObject(location))]
    requires notes == [("condition", JString("New")), ("availability", JString("Limited"))]
    requires edition == [("number", JInteger(1)), ("type", JString("First Edition")), ("notes", JObject(notes))]
    requires publication == [("publisher", JObject(publisher)), ("year", JInteger(2023)), ("edition", JObject(edition))]
    ensures WordKeyed(publication)
  {
    PublisherKeyed(publisher, location, coordinates, lat, lon);
    EditionKeyed(edition, notes);
    assert IsWordKey("publisher") && IsWordKey("year") && IsWordKey("edition");
  }

  lemma ClassificationKeyed(classification: seq<(string, Json)>, secondary: seq<(string, Json)>)
    requires secondary == [("category", JString("Nested")), ("subcategory", JString("Deep"))]
    requires classification == [("primary", JString("Test")), ("secondary", JObject(secondary))]
    ensures WordKeyed(classification)
  {
    assert IsWordKey("category") && IsWordKey("subcategory");
    assert WordKeyed(secondary);
    assert IsWordKey("primary") && IsWordKey("secondary");
  }

  lemma RecordKeyed(ms: seq<(string, Json)>, metadata: seq<(string, Json)>, publication: seq<(string, Json)>,
                    classification: seq<(string, Json)>)
    requires WordKeyed(publication) && WordKeyed(classification)
    requires metadata == [("publication", JObject(publication)), ("classification", JObject(classification))]
    requires ms == [("id", JString("nested001")), ("title", JString("Deeply nested document")),
                    ("metadata", JObject(metadata))]
    ensures WordKeyed(ms)
  {
    assert IsWordKey("publication") && IsWordKey("classification");
    assert WordKeyed(metadata);
    assert IsWordKey("id") && IsWordKey("title") && IsWordKey("metadata");
  }

  /** `metadata_publication_publisher_name`, `..._location_city` and `..._location_coordinates_latitude`. */
  lemma PublisherFields(ms: seq<(string, Json)>, metadata: seq<(string, Json)>, publication: seq<(string, Json)>,
                        publisher: seq<(string, Json)>, location: seq<(string, Json)>,
                        coordinates: seq<(string, Json)>, lat: DoubleToken)
    requires WordKeyed(ms)
    requires |ms| == 3 && ms[2] == ("metadata", JObject(metadata))
    requires |metadata| == 2 && metadata[0] == ("publication", JObject(publication))
    requires |publication| == 3 && publication[0] == ("publisher", JObject(publisher))
    requires publisher == [("name", JString("Deep Nest Publishing")), ("location", JObject(location))]
    requires |location| == 3 && location[0] == ("city", JString("Nestville"))
    requires location[2] == ("coordinates", JObject(coordinates))
    requires |coordinates| == 2 && coordinates[0] == ("latitude", JDouble(lat))
    ensures var doc := FlattenRecord(JObject(ms));
      var p3 := "metadata" + "_" + "publication" + "_" + "publisher";
      && p3 + "_" + "name" in doc && doc[p3 + "_" + "name"] == Single(Text("Deep Nest Publishing"))
      && p3 + "_" + "location" + "_" + "city" in doc
      && doc[p3 + "_" + "location" + "_" + "city"] == Single(Text("Nestville"))
      && p3 + "_" + "location" + "_" + "coordinates" + "_" + "latitude" in doc
      && doc[p3 + "_" + "location" + "_" + "coordinates" + "_" + "latitude"] == Single(Double(lat))
  {
    var p3 := "metadata" + "_" + "publication" + "_" + "publisher";
    NameField(ms, metadata, publication, publisher, p3);
    CityField(ms, metadata, publication, publisher, location, p3);
    LatitudeField(ms, metadata, publication, publisher, location, coordinates, lat, p3);
  }

  /** Publisher's path prefix: `metadata`, `publication`, `publisher`, joined. */
  lemma ToPublisher(ms: seq<(string, Json)>, metadata: seq<(string, Json)>, publication: seq<(string, Json)>,
                    publisher: seq<(string, Json)>, p3: string, path: seq<nat>)
    requires |ms| == 3 && ms[2] == ("metadata", JObject(metadata))
    requires |metadata| == 2 && metadata[0] == ("publication", JObject(publication))
    requires |publication| == 3 && publication[0] == ("publisher", JObject(publisher))
    requires p3 == "metadata" + "_" + "publication" + "_" + "publisher"
    requires IsPath(publisher, path)
    ensures IsPath(ms, [2] + ([0] + ([0] + path)))
    ensures LeafAt(ms, [2] + ([0] + ([0] + path))) == LeafAt(publisher, path)
    ensures RawPath("", ms, [2] + ([0] + ([0] + path))) == RawPath(p3, publisher, path)
  {
    var p2 := "metadata" + "_" + "publication";
    PathCons(p2, publication, 0, path);
    PathCons("metadata", metadata, 0, [0] + path);
    PathCons("", ms, 2, [0] + ([0] + path));
  }

  lemma NameField(ms: seq<(string, Json)>, metadata: seq<(string, Json)>, publication: seq<(string, Json)>,
                  publisher: seq<(string, Json)>, p3: string)
    requires WordKeyed(ms)
    requires |ms| == 3 && ms[2] == ("metadata", JObject(metadata))
    requires |metadata| == 2 && metadata[0] == ("publication", JObject(publication))
    requires |publication| == 3 && publication[0] == ("publisher", JObject(publisher))
    requires |publisher| == 2 && publisher[0] == ("name", JString("Deep Nest Publishing"))
    requires p3 == "metadata" + "_" + "publication" + "_" + "publisher"
    ensures p3 + "_" + "name" in FlattenRecord(JObject(ms))
    ensures FlattenRecord(JObject(ms))[p3 + "_" + "name"] == Single(Text("Deep Nest Publishing"))
  {
    PathLast(p3, publisher, 0);
    ToPublisher(ms, metadata, publication, publisher, p3, [0]);
    WordKeyedField(ms, [2] + ([0] + ([0] + [0])));
  }

  lemma CityField(ms: seq<(string, Json)>, metadata: seq<(string, Json)>, publication: seq<(string, Json)>,
                  publisher: seq<(string, Json)>, location: seq<(string, Json)>, p3: string)
    requires WordKeyed(ms)
    requires |ms| == 3 && ms[2] == ("metadata", JObject(metadata))
    requires |metadata| == 2 && metadata[0] == ("publication", JObject(publication))
    requires |publication| == 3 && publication[0] == ("publisher", JObject(publisher))
    requires |publisher| == 2 && publisher[1] == ("location", JObject(location))
    requires |location| == 3 && location[0] == ("city", JString("Nestville"))
    requires p3 == "metadata" + "_" + "publication" + "_" + "publisher"
    ensures p3 + "_" + "location" + "_" + "city" in FlattenRecord(JObject(ms))
    ensures FlattenRecord(JObject(ms))[p3 + "_" + "location" + "_" + "city"] == Single(Text("Nestville"))
  {
    var p4 := p3 + "_" + "location";
    PathLast(p4, location, 0);
    PathCons(p3, publisher, 1, [0]);
    ToPublisher(ms, metadata, publication, publisher, p3, [1] + [0]);
    WordKeyedField(ms, [2] + ([0] + ([0] + ([1] + [0]))));
  }

  lemma LatitudeField(ms: seq<(string, Json)>, metadata: seq<(string, Json)>, publication: seq<(string, Json)>,
                      publisher: seq<(string, Json)>, location: seq<(string, Json)>,
                      coordinates: seq<(string, Json)>, lat: DoubleToken, p3: string)
    requires WordKeyed(ms)
    requires |ms| == 3 && ms[2] == ("metadata", JObject(metadata))
    requires |metadata| == 2 && metadata[0] == ("publication", JObject(publication))
    requires |publication| == 3 && publication[0] == ("publisher", JObject(publisher))
    requires |publisher| == 2 && publisher[1] == ("location", JObject(location))
    requires |location| == 3 && location[2] == ("coordinates", JObject(coordinates))
    requires |coordinates| == 2 && coordinates[0] == ("latitude", JDouble(lat))
    requires p3 == "metadata" + "_" + "publication" + "_" + "publisher"
    ensures p3 + "_" + "location" + "_" + "coordinates" + "_" + "latitude" in FlattenRecord(JObject(ms))
    ensures FlattenRecord(JObject(ms))[p3 + "_" + "location" + "_" + "coordinates" + "_" + "latitude"]
         == Single(Double(lat))
  {
    var p4 := p3 + "_" + "location";
    var p5 := p4 + "_" + "coordinates";
    PathLast(p5, coordinates, 0);
    PathCons(p4, location, 2, [0]);
    PathCons(p3, publisher, 1, [2] + [0]);
    ToPublisher(ms, metadata, publication, publisher, p3, [1] + ([2] + [0]));
    WordKeyedField(ms, [2] + ([0] + ([0] + ([1] + ([2] + [0])))));
  }

  /** `metadata_publication_edition_notes_condition`. */
  lemma ConditionField(ms: seq<(string, Json)>, metadata: seq<(string, Json)>, publication: seq<(string, Json)>,
                       edition: seq<(string, Json)>, notes: seq<(string, Json)>)
    requires WordKeyed(ms)
    requires |ms| == 3 && ms[2] == ("metadata", JObject(metadata))
    requires |metadata| == 2 && metadata[0] == ("publication", JObject(publication))
    requires |publication| == 3 && publication[2] == ("edition", JObject(edition))
    requires |edition| == 3 && edition[2] == ("notes", JObject(notes))
    requires |notes| == 2 && notes[0] == ("condition", JString("New"))
    ensures var n := "metadata" + "_" + "publication" + "_" + "edition" + "_" + "notes" + "_" + "condition";
      n in FlattenRecord(JObject(ms)) && FlattenRecord(JObject(ms))[n] == Single(Text("New"))
  {
    var p2 := "metadata" + "_" + "publication";
    var p3 := p2 + "_" + "edition";
    var p4 := p3 + "_" + "notes";
    PathLast(p4, notes, 0);
    PathCons(p3, edition, 2, [0]);
    PathCons(p2, publication, 2, [2] + [0]);
    PathCons("metadata", metadata, 0, [2] + ([2] + [0]));
    PathCons("", ms, 2, [0] + ([2] + ([2] + [0])));
    WordKeyedField(ms, [2] + ([0] + ([2] + ([2] + [0]))));
  }

  /** `metadata_classification_secondary_subcategory`. */
  lemma SubcategoryField(ms: seq<(string, Json)>, metadata: seq<(string, Json)>,
                         classification: seq<(string, Json)>, secondary: seq<(string, Json)>)
    requires WordKeyed(ms)
    requires |ms| == 3 && ms[2] == ("metadata", JObject(metadata))
    requires |metadata| == 2 && metadata[1] == ("classification", JObject(classification))
    requires |classification| == 2 && classification[1] == ("secondary", JObject(secondary))
    requires |secondary| == 2 && secondary[1] == ("subcategory", JString("Deep"))
    ensures var n := "metadata" + "_" + "classification" + "_" + "secondary" + "_" + "subcategory";
      n in FlattenRecord(JObject(ms)) && FlattenRecord(JObject(ms))[n] == Single(Text("Deep"))
  {
    var p2 := "metadata" + "_" + "classification";
    var p3 := p2 + "_" + "secondary";
    PathLast(p3, secondary, 1);
    PathCons(p2, classification, 1, [1]);
    PathCons("metadata", metadata, 1, [1] + [1]);
    PathCons("", ms, 2, [1] + ([1] + [1]));
    WordKeyedField(ms, [2] + ([1] + ([1] + [1])));
  }

  /** Two keys that sanitize to the same name: the later value is kept. */
  lemma CollidingKeys(ms: seq<(string, Json)>)
    requires ms == [("a-b", JInteger(1)), ("a_b", JInteger(2))]
    ensures FlattenRecord(JObject(ms)) == map["a_b" := Single(Int(2))]
  {
    var first := map["a_b" := Single(Int(1))];
    CollidingFirst(ms);
    CollidingSecond(ms, first);
    assert FlattenFrom(ms, 0, "", map[]) == FlattenFrom(ms, 2, "", FlattenMember(ms, 1, "", first));
  }

  /** The first key, `a-b`, stores its value under `a_b`. */
  lemma CollidingFirst(ms: seq<(string, Json)>)
    requires ms == [("a-b", JInteger(1)), ("a_b", JInteger(2))]
    ensures FlattenMember(ms, 0, "", map[]) == map["a_b" := Single(Int(1))]
  {
    CollidingSplit();
    assert IsSanitized("a") && IsSeparator('-');
    SanitizeSeparated("a", "-", "b");
  }

  /** The second key, `a_b`, replaces the value stored under `a_b`. */
  lemma CollidingSecond(ms: seq<(string, Json)>, first: FlatDoc)
    requires ms == [("a-b", JInteger(1)), ("a_b", JInteger(2))]
    requires first == map["a_b" := Single(Int(1))]
    ensures FlattenMember(ms, 1, "", first) == map["a_b" := Single(Int(2))]
  {
    CollidingSplit();
    assert IsSanitized("a") && IsSeparator('_');
    SanitizeSeparated("a", "_", "b");
  }

  lemma CollidingSplit()
    ensures "a-b" == "a" + "-" + "b" && "a_b" == "a" + "_" + "b"
  {
  }

  /** The keys of the value-type record are clean. */
  lemma ValueTypeKeys()
    ensures IsSanitized("id") && IsSanitized("boolean_value") && IsSanitized("int_value")
    ensures IsSanitized("double_value") && IsSanitized("long_value") && IsSanitized("text_value")
  {
    ValueTypeKeysA();
    ValueTypeKeysB();
    ValueTypeKeysC();
  }

  lemma ValueTypeKeysA()
    ensures IsSanitized("id") && IsSanitized("boolean_value")
  {
    assert IsSanitized("boolean") && IsSanitized("value");
    SanitizedJoin("boolean", "value");
    assert "boolean_value" == "boolean" + "_" + "value";
  }

  lemma ValueTypeKeysB()
    ensures IsSanitized("int_value") && IsSanitized("double_value")
  {
    assert IsSanitized("int") && IsSanitized("double") && IsSanitized("value");
    SanitizedJoin("int", "value");
    SanitizedJoin("double", "value");
    assert "int_value" == "int" + "_" + "value" && "double_value" == "double" + "_" + "value";
  }

  lemma ValueTypeKeysC()
    ensures IsSanitized("long_value") && IsSanitized("text_value")
  {
    assert IsSanitized("long") && IsSanitized("text") && IsSanitized("value");
    SanitizedJoin("long", "value");
    SanitizedJoin("text", "value");
    assert "long_value" == "long" + "_" + "value" && "text_value" == "text" + "_" + "value";
  }

  /** The value-type record: each value keeps its type, 42 as a 32-bit and 9223372036854775807 as a 64-bit integer. */
  lemma ValueTypesDocument(ms: seq<(string, Json)>, id: string, d: DoubleToken, text: string, want: FlatDoc)
    requires ms == [("id", JString(id)), ("boolean_value", JBool(true)), ("int_value", JInteger(42)),
                    ("double_value", JDouble(d)), ("long_value", JInteger(9223372036854775807)),
                    ("text_value", JString(text))]
    requires want == map["id" := Single(Text(id)), "boolean_value" := Single(Bool(true)), "int_value" := Single(Int(42)),
                "double_value" := Single(Double(d)), "long_value" := Single(Long(9223372036854775807)),
                "text_value" := Single(Text(text))]
    ensures FlattenRecord(JObject(ms)) == want
  {
    ValueTypesClean(ms, id, d, text);
    ValueTypesNames(ms, id, d, text);
    ValueTypesValues(ms, id, d, text, want);
    CleanRecordDocument(ms, want);
  }

  lemma ValueTypesClean(ms: seq<(string, Json)>, id: string, d: DoubleToken, text: string)
    requires ms == [("id", JString(id)), ("boolean_value", JBool(true)), ("int_value", JInteger(42)),
                    ("double_value", JDouble(d)), ("long_value", JInteger(9223372036854775807)),
                    ("text_value", JString(text))]
    ensures CleanRecord(ms)
  {
    ValueTypeKeys();
  }

  lemma ValueTypesNames(ms: seq<(string, Json)>, id: string, d: DoubleToken, text: string)
    requires ms == [("id", JString(id)), ("boolean_value", JBool(true)), ("int_value", JInteger(42)),
                    ("double_value", JDouble(d)), ("long_value", JInteger(9223372036854775807)),
                    ("text_value", JString(text))]
    ensures (set k | 0 <= k < |ms| && LeafField(ms[k].1).Some? :: ms[k].0)
          == {"id", "boolean_value", "int_value", "double_value", "long_value", "text_value"}
  {
    var names := set k | 0 <= k < |ms| && LeafField(ms[k].1).Some? :: ms[k].0;
    assert LeafField(ms[0].1).Some? && LeafField(ms[1].1).Some? && LeafField(ms[2].1).Some?;
    assert LeafField(ms[3].1).Some? && LeafField(ms[4].1).Some? && LeafField(ms[5].1).Some?;
    assert ms[0].0 in names && ms[1].0 in names && ms[2].0 in names;
    assert ms[3].0 in names && ms[4].0 in names && ms[5].0 in names;
  }

  lemma ValueTypesValues(ms: seq<(string, Json)>, id: string, d: DoubleToken, text: string, want: FlatDoc)
    requires ms == [("id", JString(id)), ("boolean_value", JBool(true)), ("int_value", JInteger(42)),
                    ("double_value", JDouble(d)), ("long_value", JInteger(9223372036854775807)),
                    ("text_value", JString(text))]
    requires want == map["id" := Single(Text(id)), "boolean_value" := Single(Bool(true)), "int_value" := Single(Int(42)),
                "double_value" := Single(Double(d)), "long_value" := Single(Long(9223372036854775807)),
                "text_value" := Single(Text(text))]
    ensures forall k :: 0 <= k < |ms| && LeafField(ms[k].1).Some? ==> ms[k].0 in want && want[ms[k].0] == LeafField(ms[k].1).value
  {
    forall k | 0 <= k < |ms| && LeafField(ms[k].1).Some?
      ensures ms[k].0 in want && want[ms[k].0] == LeafField(ms[k].1).value
    {
      if k == 0 { } else if k == 1 { } else if k == 2 { }
      else if k == 3 { } else if k == 4 { } else { }
    }
  }

  lemma KeywordsList(keywords: seq<Json>)
    requires keywords == [JString("arrays"), JString("objects"), JString("testing")]
    ensures !HasContainer(keywords)
    ensures ScalarList(keywords) == [Text("arrays"), Text("objects"), Text("testing")]
  {
    assert ScalarList(keywords[2..]) == [Text("testing")];
    assert ScalarList(keywords[1..]) == [Text("objects"), Text("testing")];
  }

  /**
   * Arrays of objects (`authors`, `reviews`) emit no field, while the array of
   * strings `keywords` becomes a list keeping its three items in order.
   */
  lemma ArraysOfObjectsDocument(ms: seq<(string, Json)>, id: string, title: string,
                                authors: seq<Json>, reviews: seq<Json>, want: FlatDoc)
    requires HasContainer(authors) && HasContainer(reviews)
    requires ms == [("id", JString(id)), ("title", JString(title)), ("authors", JArray(authors)),
                    ("reviews", JArray(reviews)),
                    ("keywords", JArray([JString("arrays"), JString("objects"), JString("testing")]))]
    requires want == map["id" := Single(Text(id)), "title" := Single(Text(title)),
                "keywords" := Multi([Text("arrays"), Text("objects"), Text("testing")])]
    ensures FlattenRecord(JObject(ms)) == want
  {
    ArraysOfObjectsClean(ms, id, title, authors, reviews);
    ArraysOfObjectsNames(ms, id, title, authors, reviews);
    ArraysOfObjectsValues(ms, id, title, authors, reviews, want);
    CleanRecordDocument(ms, want);
  }

  lemma ArraysOfObjectsClean(ms: seq<(string, Json)>, id: string, title: string,
                             authors: seq<Json>, reviews: seq<Json>)
    requires ms == [("id", JString(id)), ("title", JString(title)), ("authors", JArray(authors)),
                    ("reviews", JArray(reviews)),
                    ("keywords", JArray([JString("arrays"), JString("objects"), JString("testing")]))]
    ensures CleanRecord(ms)
  {
    assert IsSanitized("id") && IsSanitized("title") && IsSanitized("authors");
    assert IsSanitized("reviews") && IsSanitized("keywords");
  }

  lemma ArraysOfObjectsNames(ms: seq<(string, Json)>, id: string, title: string,
                             authors: seq<Json>, reviews: seq<Json>)
    requires HasContainer(authors) && HasContainer(reviews)
    requires ms == [("id", JString(id)), ("title", JString(title)), ("authors", JArray(authors)),
                    ("reviews", JArray(reviews)),
                    ("keywords", JArray([JString("arrays"), JString("objects"), JString("testing")]))]
    ensures (set k | 0 <= k < |ms| && LeafField(ms[k].1).Some? :: ms[k].0) == {"id", "title", "keywords"}
  {
    KeywordsList(ms[4].1.items);
    var names := set k | 0 <= k < |ms| && LeafField(ms[k].1).Some? :: ms[k].0;
    assert LeafField(ms[2].1).None? && LeafField(ms[3].1).None?;
    assert ms[0].0 in names && ms[1].0 in names && ms[4].0 in names;
  }

  lemma ArraysOfObjectsValues(ms: seq<(string, Json)>, id: string, title: string,
                              authors: seq<Json>, reviews: seq<Json>, want: FlatDoc)
    requires HasContainer(authors) && HasContainer(reviews)
    requires ms == [("id", JString(id)), ("title", JString(title)), ("authors", JArray(authors)),
                    ("reviews", JArray(reviews)),
                    ("keywords", JArray([JString("arrays"), JString("objects"), JString("testing")]))]
    requires want == map["id" := Single(Text(id)), "title" := Single(Text(title)),
                "keywords" := Multi([Text("arrays"), Text("objects"), Text("testing")])]
    ensures forall k :: 0 <= k < |ms| && LeafField(ms[k].1).Some? ==> ms[k].0 in want && want[ms[k].0] == LeafField(ms[k].1).value
  {
    KeywordsList(ms[4].1.items);
    forall k | 0 <= k < |ms| && LeafField(ms[k].1).Some?
      ensures ms[k].0 in want && want[ms[k].0] == LeafField(ms[k].1).value
    {
      if k == 0 { } else if k == 1 { } else if k == 2 { } else if k == 3 { } else { }
    }
  }

  /**
   * A mixed-case key at any position that no later member overrides:
   * `inStock: [true]` is stored as the list `[true]` under `instock`, and
   * nothing is stored under `inStock`.
   */
  lemma InStockField(ms: seq<(string, Json)>, j: nat, items: seq<Json>)
    requires items == [JBool(true)]
    requires j < |ms| && ms[j] == ("inStock", JArray(items))
    requires "instock" !in Names(Writes(ms, j + 1, ""))
    ensures "instock" in FlattenRecord(JObject(ms)) && FlattenRecord(JObject(ms))["instock"] == Multi([Bool(true)])
    ensures "inStock" !in FlattenRecord(JObject(ms))
  {
    TrueList(items);
    InStockList(ms, j, items);
  }

  /** A mixed-case array member stores its list under the lowered name. */
  lemma InStockList(ms: seq<(string, Json)>, j: nat, items: seq<Json>)
    requires j < |ms| && ms[j] == ("inStock", JArray(items)) && !HasContainer(items)
    requires "instock" !in Names(Writes(ms, j + 1, ""))
    ensures "instock" in FlattenRecord(JObject(ms)) && FlattenRecord(JObject(ms))["instock"] == Multi(ScalarList(items))
    ensures "inStock" !in FlattenRecord(JObject(ms))
  {
    FieldNameExamples.MixedCaseKey();
    ScalarArrayMember(ms, j);
    MixedCaseKeyAbsent(JObject(ms));
  }

  lemma TrueList(items: seq<Json>)
    requires items == [JBool(true)]
    ensures !HasContainer(items) && ScalarList(items) == [Bool(true)]
  {
    assert ScalarList(items[1..]) == [];
  }
}
