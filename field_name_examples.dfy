/**
 * The field names that the ingestion tests feed through the sanitizer, with
 * the names they expect back. Each long literal is first taken apart into
 * short words by a lemma of its own, so that every step stays a small
 * computation.
 */
module FieldNameExamples {
  import opened FieldNames

  /** "field" c "with" d x, for separators c and d, is stored as "field_with_" x. */
  lemma FieldWith(c: char, d: char, x: string)
    requires IsSeparator(c) && IsSeparator(d)
    requires IsSanitized(x) && x != []
    ensures Sanitize("field" + [c] + "with" + [d] + x) == "field_with_" + x
  {
    SanitizeJoined3("field", c, "with", d, x);
    assert "field" + "_" + "with" + "_" + x == "field_with_" + x;
  }

  lemma HyphensSplit()
    ensures "field-with-hyphens" == "field" + ['-'] + "with" + ['-'] + "hyphens"
    ensures "field_with_hyphens" == "field_with_" + "hyphens"
  {
  }

  /** Hyphens between words become '_'. */
  lemma Hyphens()
    ensures Sanitize("field-with-hyphens") == "field_with_hyphens"
  {
    HyphensSplit();
    FieldWith('-', '-', "hyphens");
  }

  lemma DotsSplit()
    ensures "field.with.dots" == "field" + ['.'] + "with" + ['.'] + "dots"
    ensures "field_with_dots" == "field_with_" + "dots"
  {
  }

  /** Dots between words become '_'. */
  lemma Dots()
    ensures Sanitize("field.with.dots") == "field_with_dots"
  {
    DotsSplit();
    FieldWith('.', '.', "dots");
  }

  lemma SpacesSplit()
    ensures "field with spaces" == "field" + [' '] + "with" + [' '] + "spaces"
    ensures "field_with_spaces" == "field_with_" + "spaces"
  {
  }

  /** Blanks between words become '_'. */
  lemma Spaces()
    ensures Sanitize("field with spaces") == "field_with_spaces"
  {
    SpacesSplit();
    FieldWith(' ', ' ', "spaces");
  }

  lemma UppercasePieces()
    ensures Prepare("UPPER") == "upper" && Prepare("CASE") == "case"
    ensures Prepare("_") == "_" && Prepare("FIELD") == "field"
  {
    UppercaseWordPieces();
    UppercaseFieldPieces();
  }

  lemma UppercaseWordPieces()
    ensures Prepare("UPPER") == "upper" && Prepare("CASE") == "case"
  {
  }

  lemma UppercaseFieldPieces()
    ensures Prepare("_") == "_" && Prepare("FIELD") == "field"
  {
  }

  lemma UppercaseSplit()
    ensures "UPPERCASE" == "UPPER" + "CASE" && "uppercase" == "upper" + "case"
    ensures "UPPERCASE_FIELD" == "UPPER" + "CASE" + "_" + "FIELD"
    ensures "uppercase_field" == "upper" + "case" + "_" + "field"
  {
  }

  lemma UppercaseLowered()
    ensures Prepare("UPPERCASE") == "uppercase"
    ensures Prepare("UPPERCASE_FIELD") == "uppercase_field"
  {
    UppercasePieces();
    UppercaseSplit();
    PrepareConcat("UPPER", "CASE");
    PrepareConcat("UPPER" + "CASE", "_");
    PrepareConcat("UPPER" + "CASE" + "_", "FIELD");
  }

  lemma UppercaseSanitized()
    ensures IsSanitized("uppercase") && IsSanitized("uppercase_field")
  {
    assert IsSanitized("upper" + "case") && IsSanitized("field");
    UppercaseSplit();
    SanitizedJoin("uppercase", "field");
  }

  /** Upper case is lowered; an underscore already in place is kept. */
  lemma UppercaseField()
    ensures Sanitize("UPPERCASE_FIELD") == "uppercase_field"
  {
    UppercaseLowered();
    UppercaseSanitized();
    SanitizeClean("UPPERCASE_FIELD");
  }

  /** A name that is upper case only is lowered. */
  lemma Uppercase()
    ensures Sanitize("UPPERCASE") == "uppercase"
  {
    UppercaseLowered();
    UppercaseSanitized();
    SanitizeClean("UPPERCASE");
  }

  lemma LeadingSplit()
    ensures "__leading_underscores__" == "__" + "leading_underscores" + "__"
    ensures "leading" + "_" + "underscores" == "leading_underscores"
  {
  }

  /** Leading and trailing underscores are stripped, and the inner one is kept. */
  lemma LeadingUnderscores()
    ensures Sanitize("__leading_underscores__") == "leading_underscores"
  {
    LeadingSplit();
    SanitizedJoin("leading", "underscores");
    SanitizeTrimmed("__", "leading_underscores", "__");
  }

  lemma TrailingSplit()
    ensures "trailing_underscores___" == "" + "trailing_underscores" + "___"
    ensures "trailing" + "_" + "underscores" == "trailing_underscores"
  {
  }

  /** A run of trailing underscores is stripped. */
  lemma TrailingUnderscores()
    ensures Sanitize("trailing_underscores___") == "trailing_underscores"
  {
    TrailingSplit();
    SanitizedJoin("trailing", "underscores");
    SanitizeTrimmed("", "trailing_underscores", "___");
  }

  lemma MultipleSplit()
    ensures "multiple___underscores" == "multiple" + "___" + "underscores"
    ensures "multiple__underscores" == "multiple" + "__" + "underscores"
    ensures "multiple" + "_" + "underscores" == "multiple_underscores"
  {
  }

  /** Runs of two or three underscores collapse to one. */
  lemma MultipleUnderscores()
    ensures Sanitize("multiple___underscores") == "multiple_underscores"
    ensures Sanitize("multiple__underscores") == "multiple_underscores"
  {
    MultipleSplit();
    SanitizeSeparated("multiple", "___", "underscores");
    SanitizeSeparated("multiple", "__", "underscores");
  }

  lemma InvalidSplit()
    ensures "invalid-field" == "invalid" + "-" + "field"
    ensures "invalid" + "_" + "field" == "invalid_field"
    ensures "another.invalid" == "another" + "." + "invalid"
    ensures "another" + "_" + "invalid" == "another_invalid"
  {
  }

  /** The hyphen and dot keys of the second sanitizing test. */
  lemma InvalidFieldNames()
    ensures Sanitize("invalid-field") == "invalid_field"
    ensures Sanitize("another.invalid") == "another_invalid"
  {
    InvalidSplit();
    SanitizeSeparated("invalid", "-", "field");
    SanitizeSeparated("another", ".", "invalid");
  }

  /** The characters the special-character test puts between words. */
  const SpecialCharacters: string := "@#$%^&*()[]{}+=:;'\"<>,?/\\|`~"

  /**
   * For every special character tested, "field" c "with" d x is stored as
   * "field_with_" x: each of them becomes '_'.
   */
  lemma SpecialCharacterNames(c: char, d: char, x: string)
    requires c in SpecialCharacters && d in SpecialCharacters
    requires IsSanitized(x) && x != []
    ensures Sanitize("field" + [c] + "with" + [d] + x) == "field_with_" + x
  {
    assert forall e :: e in SpecialCharacters ==> IsSeparator(e);
    FieldWith(c, d, x);
  }

  lemma InStockPrepared()
    ensures Prepare("inStock") == "instock" && IsSanitized("instock")
    ensures !IsSanitized("inStock")
  {
    assert "inStock"[2] == 'S';
  }

  /**
   * The mixed-case key "inStock" is stored as "instock", so a lookup under the
   * original spelling finds nothing.
   */
  lemma MixedCaseKey()
    ensures Sanitize("inStock") == "instock" != "inStock"
  {
    InStockPrepared();
    SanitizeClean("inStock");
  }

  /** Keys that are already valid field names are stored under their own name. */
  lemma DynamicFieldSuffixes()
    ensures Sanitize("series_t") == "series_t" && Sanitize("sequence_i") == "sequence_i"
    ensures Sanitize("genre_s") == "genre_s" && Sanitize("id") == "id"
  {
    assert IsSanitized("series_t") && IsSanitized("sequence_i");
    assert IsSanitized("genre_s") && IsSanitized("id");
    SanitizeFixpoint("series_t");
    SanitizeFixpoint("sequence_i");
    SanitizeFixpoint("genre_s");
    SanitizeFixpoint("id");
  }
}
