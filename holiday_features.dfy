/**
 * `process_holidays`: for every holiday of the user's year, the record gains
 * a column `days_to_<sanitised name>` holding the number of days from the
 * user's date to the holiday. Dates are day ordinals (`date.toordinal()`), and
 * the calendar is given as its entries in iteration order.
 */
module HolidayFeatures {

  import opened HolidayNames

  /** One calendar entry: the holiday's date as a day ordinal, and its name. */
  datatype Holiday = Holiday(date: int, name: string)

  const ColumnPrefix: string := "days_to_"

  /** `'days_to_' + _sanitize_holiday_name(name)`. */
  function ColumnName(name: string): (column: string)
    ensures |column| >= |ColumnPrefix| && column[..|ColumnPrefix|] == ColumnPrefix
    ensures forall j :: |ColumnPrefix| <= j < |column| ==> IsSanitizedChar(column[j])
  {
    ColumnPrefix + SanitizeHolidayName(name)
  }

  /** The columns the calendar's holidays name. */
  function ColumnNames(holidays: seq<Holiday>): set<string> {
    set p | 0 <= p < |holidays| :: ColumnName(holidays[p].name)
  }

  /** The record after the loop has run over `holidays`, one assignment per entry. */
  function WithHolidayColumns(record: map<string, int>, userDate: int, holidays: seq<Holiday>): (out: map<string, int>)
    ensures record.Keys <= out.Keys
    ensures forall key :: key in out && key !in record ==>
              |key| >= |ColumnPrefix| && key[..|ColumnPrefix|] == ColumnPrefix
  {
    if holidays == [] then record
    else
      var n := |holidays| - 1;
      WithHolidayColumns(record, userDate, holidays[..n])[ColumnName(holidays[n].name) := holidays[n].date - userDate]
  }

  /** The row of the users table that the function fills in place. */
  class Record {
    var columns: map<string, int>

    constructor (columns: map<string, int>)
      ensures this.columns == columns
    {
      this.columns := columns;
    }
  }

  /** The loop of `process_holidays`, for a user whose date has ordinal `userDate`. */
  method ProcessHolidays(df: Record, userDate: int, holidays: seq<Holiday>)
    modifies df
    ensures df.columns == WithHolidayColumns(old(df.columns), userDate, holidays)
    ensures df.columns.Keys == old(df.columns).Keys + ColumnNames(holidays)
  {
    var k := 0;
    while k < |holidays|
      invariant k <= |holidays|
      invariant df.columns == WithHolidayColumns(old(df.columns), userDate, holidays[..k])
    {
      var days := holidays[k].date - userDate;
      var name := SanitizeHolidayName(holidays[k].name);
      df.columns := df.columns[ColumnPrefix + name := days];
      assert holidays[..k + 1][..k] == holidays[..k];
      k := k + 1;
    }
    assert holidays[..k] == holidays;
    ColumnKeys(old(df.columns), userDate, holidays);
  }

  lemma ColumnNamesOfPrefix(holidays: seq<Holiday>)
    requires holidays != []
    ensures ColumnNames(holidays)
            == ColumnNames(holidays[..|holidays| - 1]) + {ColumnName(holidays[|holidays| - 1].name)}
  {
    var n := |holidays| - 1;
    var front := holidays[..n];
    var all, before, last := ColumnNames(holidays), ColumnNames(front), ColumnName(holidays[n].name);
    forall c | c in all
      ensures c in before || c == last
    {
      var p :| 0 <= p < |holidays| && c == ColumnName(holidays[p].name);
      if p < n {
        assert front[p] == holidays[p];
      }
    }
    forall c | c in before
      ensures c in all
    {
      var p :| 0 <= p < n && c == ColumnName(front[p].name);
      assert holidays[p] == front[p];
    }
    assert last in all;
    assert all == before + {last};
  }

  /** The record ends up with its old columns and one column per holiday name. */
  lemma {:induction false} ColumnKeys(record: map<string, int>, userDate: int, holidays: seq<Holiday>)
    ensures WithHolidayColumns(record, userDate, holidays).Keys == record.Keys + ColumnNames(holidays)
  {
    if holidays != [] {
      ColumnKeys(record, userDate, holidays[..|holidays| - 1]);
      ColumnNamesOfPrefix(holidays);
    }
  }

  /** A column that no holiday names is left as it was, present or absent. */
  lemma {:induction false} OtherColumnsUnchanged(record: map<string, int>, userDate: int, holidays: seq<Holiday>, key: string)
    requires key !in ColumnNames(holidays)
    ensures key in WithHolidayColumns(record, userDate, holidays) <==> key in record
    ensures key in record ==> WithHolidayColumns(record, userDate, holidays)[key] == record[key]
  {
    if holidays != [] {
      ColumnNamesOfPrefix(holidays);
      OtherColumnsUnchanged(record, userDate, holidays[..|holidays| - 1], key);
    }
  }

  /** In particular the columns that do not start with `days_to_`, such as the user's date fields. */
  lemma UnprefixedColumnsUnchanged(record: map<string, int>, userDate: int, holidays: seq<Holiday>, key: string)
    requires !(|key| >= |ColumnPrefix| && key[..|ColumnPrefix|] == ColumnPrefix)
    ensures key in WithHolidayColumns(record, userDate, holidays) <==> key in record
    ensures key in record ==> WithHolidayColumns(record, userDate, holidays)[key] == record[key]
  {
    OtherColumnsUnchanged(record, userDate, holidays, key);
  }

  /**
   * A holiday's column holds the days from the user's date to it, unless a
   * later holiday sanitises to the same name and overwrites it.
   */
  lemma {:induction false} HolidayColumnValue(record: map<string, int>, userDate: int, holidays: seq<Holiday>, p: nat)
    requires p < |holidays|
    requires forall q :: p < q < |holidays| ==> ColumnName(holidays[q].name) != ColumnName(holidays[p].name)
    ensures ColumnName(holidays[p].name) in WithHolidayColumns(record, userDate, holidays)
    ensures WithHolidayColumns(record, userDate, holidays)[ColumnName(holidays[p].name)]
            == holidays[p].date - userDate
  {
    var n := |holidays| - 1;
    if p < n {
      HolidayColumnValue(record, userDate, holidays[..n], p);
    }
  }

  /**
   * A holiday on the user's own date gets the distance 0, unless a later
   * holiday sanitises to the same name and overwrites it.
   */
  lemma HolidayOnUserDate(record: map<string, int>, userDate: int, holidays: seq<Holiday>, p: nat)
    requires p < |holidays| && holidays[p].date == userDate
    requires forall q :: p < q < |holidays| ==> ColumnName(holidays[q].name) != ColumnName(holidays[p].name)
    ensures ColumnName(holidays[p].name) in WithHolidayColumns(record, userDate, holidays)
    ensures WithHolidayColumns(record, userDate, holidays)[ColumnName(holidays[p].name)] == 0
  {
    HolidayColumnValue(record, userDate, holidays, p);
  }

  lemma {:induction false} ColumnNamesBound(holidays: seq<Holiday>)
    ensures |ColumnNames(holidays)| <= |holidays|
  {
    if holidays != [] {
      ColumnNamesOfPrefix(holidays);
      ColumnNamesBound(holidays[..|holidays| - 1]);
    }
  }

  lemma {:induction false} ColumnNamesExact(holidays: seq<Holiday>)
    requires forall p, q :: 0 <= p < q < |holidays| ==> ColumnName(holidays[p].name) != ColumnName(holidays[q].name)
    ensures |ColumnNames(holidays)| == |holidays|
  {
    if holidays != [] {
      var n := |holidays| - 1;
      ColumnNamesOfPrefix(holidays);
      ColumnNamesExact(holidays[..n]);
      assert ColumnName(holidays[n].name) !in ColumnNames(holidays[..n]);
    }
  }

  /** The loop adds at most one new column per holiday. */
  lemma NewColumnsBound(record: map<string, int>, userDate: int, holidays: seq<Holiday>)
    ensures |WithHolidayColumns(record, userDate, holidays).Keys - record.Keys| <= |holidays|
  {
    var added := WithHolidayColumns(record, userDate, holidays).Keys - record.Keys;
    ColumnKeys(record, userDate, holidays);
    assert added <= ColumnNames(holidays);
    ColumnNamesBound(holidays);
  }

  /** Two holidays with the same column name leave fewer names than entries. */
  lemma {:induction false} CollidingColumnNames(holidays: seq<Holiday>, p: nat, q: nat)
    requires p < q < |holidays| && ColumnName(holidays[p].name) == ColumnName(holidays[q].name)
    ensures |ColumnNames(holidays)| < |holidays|
  {
    var n := |holidays| - 1;
    var front := holidays[..n];
    ColumnNamesOfPrefix(holidays);
    if q == n {
      assert front[p] == holidays[p];
      assert ColumnName(holidays[n].name) in ColumnNames(front);
      assert ColumnNames(holidays) == ColumnNames(front);
      ColumnNamesBound(front);
    } else {
      assert front[p] == holidays[p] && front[q] == holidays[q];
      CollidingColumnNames(front, p, q);
    }
  }

  /**
   * The loop adds exactly one column per holiday if and only if the holidays'
   * column names are pairwise distinct and new to the record: a collision or
   * an existing column means fewer new columns.
   */
  lemma NewColumnsExact(record: map<string, int>, userDate: int, holidays: seq<Holiday>)
    ensures |WithHolidayColumns(record, userDate, holidays).Keys - record.Keys| == |holidays|
            <==> (forall p, q :: 0 <= p < q < |holidays| ==> ColumnName(holidays[p].name) != ColumnName(holidays[q].name))
                 && (forall p :: 0 <= p < |holidays| ==> ColumnName(holidays[p].name) !in record)
  {
    var added := WithHolidayColumns(record, userDate, holidays).Keys - record.Keys;
    var names := ColumnNames(holidays);
    ColumnKeys(record, userDate, holidays);
    assert added == names - record.Keys;
    ColumnNamesBound(holidays);
    var distinct := forall p, q :: 0 <= p < q < |holidays| ==> ColumnName(holidays[p].name) != ColumnName(holidays[q].name);
    var newToRecord := forall p :: 0 <= p < |holidays| ==> ColumnName(holidays[p].name) !in record;
    if distinct && newToRecord {
      assert added == names;
      ColumnNamesExact(holidays);
    } else if !distinct {
      var p, q :| 0 <= p < q < |holidays| && ColumnName(holidays[p].name) == ColumnName(holidays[q].name);
      CollidingColumnNames(holidays, p, q);
      assert added <= names;
    } else {
      var p :| 0 <= p < |holidays| && ColumnName(holidays[p].name) in record;
      var c := ColumnName(holidays[p].name);
      assert c in names;
      assert added <= names - {c};
    }
  }
}
