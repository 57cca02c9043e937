/** Year-scoped ticket numbers `IT-<year>-<sequence>`. The sequence is the number of tickets
    whose number already starts with `IT-<year>-`, plus one, zero-padded to four digits. The
    count is taken and the row inserted in one step here; the database interleaving of
    concurrent requests is not modelled, so uniqueness holds for sequential execution only. */
module Numbering {
  import opened Base
  import opened PyText
  import opened Models

  /** `generate_ticket_number(year, count)`, i.e. `f"IT-{year}-{count:04d}"`. */
  function GenerateTicketNumber(year: nat, count: nat): string {
    "IT-" + Decimal(year) + "-" + ZeroPad4(count)
  }

  /** The pattern `IT-<year>-%` without its wildcard: a prefix every number of that year has. */
  function YearPrefix(year: nat): string {
    "IT-" + Decimal(year) + "-"
  }

  /** How many tickets match `ticket_number LIKE 'IT-<year>-%'`. */
  function CountYear(ts: seq<Ticket>, year: nat): (n: nat)
    ensures n <= |ts|
  {
    if |ts| == 0 then 0
    else CountYear(ts[..|ts| - 1], year) + (if YearPrefix(year) <= ts[|ts| - 1].number then 1 else 0)
  }

  /** The number the next ticket created in `year` receives. */
  function NextNumber(ts: seq<Ticket>, year: nat): string {
    GenerateTicketNumber(year, CountYear(ts, year) + 1)
  }

  // ---------------------------------------------------------------------------------------
  // Reading a number back

  /** The position of the first `-`. */
  function DashIndex(s: string): (r: Option<nat>)
    ensures r.Some? ==> r.value < |s| && s[r.value] == '-' && '-' !in s[..r.value]
    ensures r.None? ==> '-' !in s
  {
    if |s| == 0 then None
    else if s[0] == '-' then Some(0)
    else match DashIndex(s[1..])
      case None => None
      case Some(i) => assert s[..i + 1] == [s[0]] + s[1..][..i]; Some(i + 1)
  }

  /** The year and sequence a ticket number denotes, if it has the `IT-<digits>-<digits>` shape. */
  function ParseTicketNumber(s: string): Option<(nat, nat)> {
    if |s| < 3 || s[..3] != "IT-" then None
    else
      var rest := s[3..];
      match DashIndex(rest)
      case None => None
      case Some(i) =>
        var y := rest[..i];
        var k := rest[i + 1..];
        if |y| >= 1 && AllDigits(y) && |k| >= 1 && AllDigits(k) then Some((DigitsValue(y), DigitsValue(k)))
        else None
  }

  lemma {:induction false} DashIndexAfter(d: string, p: string)
    requires '-' !in d
    ensures DashIndex(d + "-" + p) == Some(|d|)
    decreases |d|
  {
    var s := d + "-" + p;
    if |d| > 0 {
      assert s[0] == d[0] && s[1..] == d[1..] + "-" + p;
      DashIndexAfter(d[1..], p);
    } else {
      assert s[0] == '-';
    }
  }

  /** Any `IT-<digits>-<digits>` string reads back as its two digit groups. */
  lemma ParseShape(d: string, p: string)
    requires |d| >= 1 && AllDigits(d) && |p| >= 1 && AllDigits(p)
    ensures ParseTicketNumber("IT-" + d + "-" + p) == Some((DigitsValue(d), DigitsValue(p)))
  {
    var s := "IT-" + d + "-" + p;
    assert s[..3] == "IT-";
    var rest := s[3..];
    assert rest == d + "-" + p;
    forall j | 0 <= j < |d| ensures d[j] != '-' {
      assert IsDigit(d[j]);
    }
    DashIndexAfter(d, p);
    assert rest[..|d|] == d;
    assert rest[|d| + 1..] == p;
  }

  /** A generated number reads back as the year and count it was made from. */
  lemma ParseGenerated(year: nat, count: nat)
    ensures ParseTicketNumber(GenerateTicketNumber(year, count)) == Some((year, count))
  {
    ParseShape(Decimal(year), ZeroPad4(count));
    DecimalRoundTrip(year);
    ZeroPad4RoundTrip(count);
  }

  /** Different (year, count) pairs give different numbers. */
  lemma GenerateInjective(y1: nat, c1: nat, y2: nat, c2: nat)
    requires y1 != y2 || c1 != c2
    ensures GenerateTicketNumber(y1, c1) != GenerateTicketNumber(y2, c2)
  {
    ParseGenerated(y1, c1);
    ParseGenerated(y2, c2);
  }

  /** A number generated for `year` matches that year's `LIKE` pattern. */
  lemma GeneratedHasYearPrefix(year: nat, count: nat)
    ensures YearPrefix(year) <= GenerateTicketNumber(year, count)
  {
    assert GenerateTicketNumber(year, count) == YearPrefix(year) + ZeroPad4(count);
  }

  /** For a year of four digits and at most 9999 tickets, the number has 12 characters, within
      the 20 the `ticket_number` column allows. */
  lemma NumberLength(year: nat, count: nat)
    requires 1000 <= year <= 9999 && count <= 9999
    ensures |GenerateTicketNumber(year, count)| == 12
  {
    assert |Decimal(year / 1000)| == 1;
    assert |Decimal(year / 100)| == 2 by {
      assert (year / 100) / 10 == year / 1000;
    }
    assert |Decimal(year / 10)| == 3 by {
      assert (year / 10) / 10 == year / 100;
    }
    assert |Decimal(year)| == 4;
    if count >= 1000 {
      assert |Decimal(count / 1000)| == 1;
      assert |Decimal(count / 100)| == 2 by {
        assert (count / 100) / 10 == count / 1000;
      }
      assert |Decimal(count / 10)| == 3 by {
        assert (count / 10) / 10 == count / 100;
      }
    } else if count >= 100 {
      assert |Decimal(count / 10)| == 2 by {
        assert (count / 10) / 10 == count / 100;
      }
    }
  }

  // ---------------------------------------------------------------------------------------
  // Counting

  lemma CountYearAppend(ts: seq<Ticket>, t: Ticket, year: nat)
    ensures CountYear(ts + [t], year) == CountYear(ts, year) + (if YearPrefix(year) <= t.number then 1 else 0)
  {
    assert (ts + [t])[..|ts|] == ts;
  }

  /** Overwriting a ticket with one that keeps its number leaves every year's count alone. */
  lemma {:induction false} CountYearReplace(ts: seq<Ticket>, i: nat, t: Ticket, year: nat)
    requires i < |ts| && t.number == ts[i].number
    ensures CountYear(ts[i := t], year) == CountYear(ts, year)
    decreases |ts|
  {
    var n := |ts|;
    var ts' := ts[i := t];
    if i == n - 1 {
      assert ts'[..n - 1] == ts[..n - 1];
    } else {
      assert ts'[..n - 1] == ts[..n - 1][i := t];
      CountYearReplace(ts[..n - 1], i, t, year);
    }
  }

  // ---------------------------------------------------------------------------------------
  // Sequential uniqueness

  /** Every ticket number reads back as (year, k) with k between 1 and the year's current count.
      Creating tickets one at a time keeps this, and it is what makes the next number fresh. */
  predicate NumberingConsistent(ts: seq<Ticket>) {
    forall i :: 0 <= i < |ts| ==> ConsistentNumber(ts, ts[i].number)
  }

  predicate ConsistentNumber(ts: seq<Ticket>, number: string) {
    match ParseTicketNumber(number)
    case None => false
    case Some((y, k)) => 1 <= k <= CountYear(ts, y)
  }

  /** Under the numbering invariant the number allocated next is not yet in use, so the unique
      column never rejects a sequential create. */
  lemma NextNumberFresh(ts: seq<Ticket>, year: nat)
    requires NumberingConsistent(ts)
    ensures !NumberTaken(ts, NextNumber(ts, year))
  {
    forall k | 0 <= k < |ts| ensures ts[k].number != NextNumber(ts, year) {
      ConsistentBelowNext(ts, ts[k].number, year);
    }
  }

  /** A consistent number counts at most the year's current total, so it is not the next one. */
  lemma ConsistentBelowNext(ts: seq<Ticket>, number: string, year: nat)
    requires ConsistentNumber(ts, number)
    ensures number != NextNumber(ts, year)
  {
    ParseGenerated(year, CountYear(ts, year) + 1);
  }

  /** Appending a ticket that carries the allocated number keeps the invariant and raises that
      year's count by exactly one. */
  lemma AppendNextKeepsConsistent(ts: seq<Ticket>, t: Ticket, year: nat)
    requires NumberingConsistent(ts)
    requires t.number == NextNumber(ts, year)
    ensures CountYear(ts + [t], year) == CountYear(ts, year) + 1
    ensures NumberingConsistent(ts + [t])
  {
    var ts' := ts + [t];
    GeneratedHasYearPrefix(year, CountYear(ts, year) + 1);
    CountYearAppend(ts, t, year);
    forall i | 0 <= i < |ts'| ensures ConsistentNumber(ts', ts'[i].number) {
      if i < |ts| {
        assert ts'[i] == ts[i];
        assert ConsistentNumber(ts, ts[i].number);
        AppendKeepsConsistentNumber(ts, t, ts[i].number);
      } else {
        assert ts'[i] == t;
        NextIsConsistent(ts, t, year);
      }
    }
  }

  /** A ticket carrying the allocated number reads back as the year and the next count, and
      appending it raises that year's count by one. */
  lemma NextNumberCounts(ts: seq<Ticket>, t: Ticket, year: nat)
    requires t.number == NextNumber(ts, year)
    ensures ParseTicketNumber(t.number) == Some((year, CountYear(ts, year) + 1))
    ensures CountYear(ts + [t], year) == CountYear(ts, year) + 1
  {
    NextNumberParses(ts, year);
    NextNumberCountsOnce(ts, t, year);
  }

  lemma NextNumberParses(ts: seq<Ticket>, year: nat)
    ensures ParseTicketNumber(NextNumber(ts, year)) == Some((year, CountYear(ts, year) + 1))
  {
    ParseGenerated(year, CountYear(ts, year) + 1);
  }

  lemma NextNumberCountsOnce(ts: seq<Ticket>, t: Ticket, year: nat)
    requires t.number == NextNumber(ts, year)
    ensures CountYear(ts + [t], year) == CountYear(ts, year) + 1
  {
    GeneratedHasYearPrefix(year, CountYear(ts, year) + 1);
    CountYearAppend(ts, t, year);
  }

  /** The allocated number is consistent once its ticket is appended. */
  lemma NextIsConsistent(ts: seq<Ticket>, t: Ticket, year: nat)
    requires t.number == NextNumber(ts, year)
    ensures ConsistentNumber(ts + [t], t.number)
  {
    GeneratedHasYearPrefix(year, CountYear(ts, year) + 1);
    CountYearAppend(ts, t, year);
    ParseGenerated(year, CountYear(ts, year) + 1);
  }

  /** A number that is consistent stays so when any ticket is appended: counts only grow. */
  lemma AppendKeepsConsistentNumber(ts: seq<Ticket>, t: Ticket, number: string)
    requires ConsistentNumber(ts, number)
    ensures ConsistentNumber(ts + [t], number)
  {
    var p := ParseTicketNumber(number).value;
    CountYearAppend(ts, t, p.0);
  }

  /** Overwriting a ticket without touching its number keeps the invariant. */
  lemma ReplaceKeepsConsistent(ts: seq<Ticket>, i: nat, t: Ticket)
    requires NumberingConsistent(ts) && i < |ts| && t.number == ts[i].number
    ensures NumberingConsistent(ts[i := t])
  {
    var ts' := ts[i := t];
    forall j | 0 <= j < |ts'| ensures ConsistentNumber(ts', ts'[j].number) {
      assert ts'[j].number == ts[j].number;
      assert ConsistentNumber(ts, ts[j].number);
      var p := ParseTicketNumber(ts[j].number).value;
      CountYearReplace(ts, i, t, p.0);
    }
  }
}
