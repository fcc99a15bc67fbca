/**
 * Value cleaning (`get_field_value`): a raw value is stripped, and blank or
 * placeholder text becomes the sentinel "N/A".
 */
module FieldValue {
  import opened Strings

  /** The sentinel for an absent, blank or placeholder value. */
  const NA: string := "N/A"

  /**
   * The placeholder list, as written. The entry " " can never match, since the
   * text it is compared with has already been stripped; the comparison is
   * case-sensitive, so "NULL" or "none" are kept as ordinary values.
   */
  const PLACEHOLDERS: seq<string> := ["", " ", "N/A", "null", "None"]

  /** `get_field_value`: strip the value; a blank or placeholder becomes "N/A". */
  function GetFieldValue(value: string): (r: string)
    ensures r == NA || (r != "" && IsTrimmed(r) && r != "null" && r != "None")
    ensures r != NA ==> r == Trim(value)
    ensures r == NA <==> Trim(value) in PLACEHOLDERS
  {
    if value == "" || Trim(value) in PLACEHOLDERS then NA else Trim(value)
  }

  /** Cleaning twice is cleaning once. */
  lemma GetFieldValueIdempotent(value: string)
    ensures GetFieldValue(GetFieldValue(value)) == GetFieldValue(value)
  {
    var r := GetFieldValue(value);
    if r != NA {
      assert Trim(r) == r;
    }
  }

  /** "N/A" is itself clean. */
  lemma NAIsClean()
    ensures GetFieldValue(NA) == NA
  {
    assert IsTrimmed(NA);
    assert Trim(NA) == PLACEHOLDERS[2];
  }

  /** The placeholder match is case-sensitive: "NULL" survives cleaning, "null" does not. */
  lemma PlaceholderMatchIsCaseSensitive()
    ensures GetFieldValue("NULL") == "NULL"
    ensures GetFieldValue(" null ") == NA
  {
    assert IsTrimmed("NULL");
    assert "NULL" != "null" by { assert "NULL"[1] != "null"[1]; }
    assert "NULL" !in PLACEHOLDERS by {
      assert "NULL" != "N/A" && "NULL" != "None";
    }
    var s := " null ";
    assert TrimStart(s) == "null " by {
      assert IsSpace(s[0]) && s[1..] == "null ";
      assert !IsSpace("null "[0]);
    }
    assert TrimEnd("null ") == "null" by {
      assert IsSpace("null "[4]) && "null "[..4] == "null";
      assert !IsSpace("null"[3]);
    }
  }
}
