/**
 * Worked examples of the pipeline's behaviour on small concrete inputs.
 */
module Scenarios {
  import opened Wrappers
  import Stats
  import Text
  import opened Table
  import opened Files
  import opened Validators
  import opened LoadDataStructure

  lemma MileageRange()
    ensures NumericValidations["test_mileage"] == Range(0.0, 1000000.0)
  {
  }

  lemma MileagesMasked(parse: Cell -> Option<real>)
    ensures Masked(NumericCoerced([Num(500000.0), Num(2000000.0), Missing], parse), Range(0.0, 1000000.0))
         == [Num(500000.0), Missing, Missing]
  {
  }

  lemma MileageValues()
    ensures NumValues([Num(500000.0), Missing, Missing]) == [500000.0]
  {
    var m1, m2, m3 := [Num(500000.0)], [Num(500000.0), Missing], [Num(500000.0), Missing, Missing];
    assert m3[..2] == m2 && m2[..1] == m1 && m1[..0] == [];
    assert NumValues(m1) == [500000.0];
  }

  lemma MedianOfOne(x: real)
    ensures Stats.Median([x]) == Some(x)
  {
    assert [x][..0] == [];
  }

  /**
   * Mileages 500000, 2000000 and a blank: the out-of-range value and the
   * blank both become the median of the one valid value, 500000.
   */
  lemma MileageFilledWithMedian(parse: Cell -> Option<real>)
    ensures NumericCells([Num(500000.0), Num(2000000.0), Missing], parse, NumericValidations["test_mileage"])
         == [Num(500000.0), Num(500000.0), Num(500000.0)]
  {
    var col := [Num(500000.0), Num(2000000.0), Missing];
    MileageRange();
    var masked := Masked(NumericCoerced(col, parse), Range(0.0, 1000000.0));
    MileagesMasked(parse);
    MileageValues();
    MedianOfOne(500000.0);
    assert Stats.Median(NumValues(masked)) == Some(500000.0);
    assert NumericCells(col, parse, Range(0.0, 1000000.0)) == FillWith(masked, Some(500000.0));
  }

  /** The median of 1 and 7 is their mean, 4. */
  lemma MedianOfOneAndSeven()
    ensures Stats.Median([1.0, 7.0]) == Some(4.0)
  {
    assert [1.0, 7.0][..1] == [1.0] && [1.0][..0] == [];
    assert Stats.Sort([1.0]) == [1.0];
    assert Stats.Insert(7.0, [1.0]) == [1.0, 7.0];
  }

  lemma ClassIdsMasked(parse: Cell -> Option<real>)
    ensures Masked(NumericCoerced([Num(1.0), Num(7.0), Num(9.0)], parse), Range(1.0, 7.0))
         == [Num(1.0), Num(7.0), Missing]
  {
  }

  lemma ClassIdValues()
    ensures NumValues([Num(1.0), Num(7.0), Missing]) == [1.0, 7.0]
  {
    var m1, m2, m3 := [Num(1.0)], [Num(1.0), Num(7.0)], [Num(1.0), Num(7.0), Missing];
    assert m3[..2] == m2 && m2[..1] == m1 && m1[..0] == [];
    assert NumValues(m1) == [1.0];
  }

  lemma ClassIdsFilled()
    ensures FillWith([Num(1.0), Num(7.0), Missing], Some(4.0)) == [Num(1.0), Num(7.0), Num(4.0)]
  {
  }

  lemma ClassIdRange()
    ensures NumericValidations["test_class_id"] == Range(1.0, 7.0)
  {
  }

  /**
   * Class ids 1, 7 and 9: both ends of the range are kept, and 9 becomes
   * the median of 1 and 7, the mean of the two middle values.
   */
  lemma ClassIdBoundsInclusive(parse: Cell -> Option<real>)
    ensures NumericCells([Num(1.0), Num(7.0), Num(9.0)], parse, NumericValidations["test_class_id"])
         == [Num(1.0), Num(7.0), Num(4.0)]
  {
    var col := [Num(1.0), Num(7.0), Num(9.0)];
    ClassIdRange();
    var masked := Masked(NumericCoerced(col, parse), Range(1.0, 7.0));
    ClassIdsMasked(parse);
    ClassIdValues();
    MedianOfOneAndSeven();
    assert Stats.Median(NumValues(masked)) == Some(4.0);
    ClassIdsFilled();
    assert NumericCells(col, parse, Range(1.0, 7.0)) == FillWith(masked, Some(4.0));
  }

  lemma StripPaddedNull()
    ensures Text.Strip(" null ") == "null"
  {
    var l := " null "[1..];
    assert Text.LeadingSpace(" null ") == 1 by {
      assert l == "null ";
      assert !Text.IsSpace(l[0]);
    }
    assert l == "null ";
    assert Text.TrailingSpace(l) == 1 by {
      assert l[..4] == "null";
      assert !Text.IsSpace("null"[3]);
    }
    assert l[..4] == "null";
  }

  lemma UpperNull()
    ensures Text.Upper("null") == "NULL"
  {
    var u := Text.Upper("null");
    assert u[0] == 'N' && u[1] == 'U' && u[2] == 'L' && u[3] == 'L';
  }

  /** A categorical " null " standardises to "N/A". */
  lemma PaddedNullIsPlaceholder(show: Cell -> string)
    ensures StandardizeCell(Str(" null "), show) == Str("N/A")
  {
    StripPaddedNull();
    UpperNull();
    assert "NULL" == NullSpellings[3];
  }

  /**
   * A folder whose names end only in `.txt` or the upper-case `.CSV` has no
   * CSV file: the loader fails before reading anything.
   */
  lemma UpperCaseSuffixIsNotCsv(folderPath: string, read: string -> FileContent)
    ensures LoadCleaned(folderPath, Some(["notes.txt", "DATA.CSV"]), read) == Err(NoCsvFiles(folderPath))
  {
    var listing := ["notes.txt", "DATA.CSV"];
    assert !IsCsvName(listing[0]) by {
      assert listing[0][5..] == ".txt";
    }
    assert !IsCsvName(listing[1]) by {
      assert listing[1][4..] == ".CSV";
    }
    assert listing[..1] == ["notes.txt"] && listing[..1][..0] == [];
  }
}
