/** `generate_amistosos_table` of Cogs/LeagueCog.py: the text of a friendly
    table, one line per slot, showing either the slot's availability or the
    friendly booked in it. The slots and the stored friendlies of the table
    are inputs, as the two database reads that produce them are. */
module FriendlyTableText {
  import opened LeagueTypes

  /** The cell of a slot before any friendly is placed in it. */
  function AvailabilityCell(s: Slot): string
  {
    if s.available then "Disponible" else "Ocupado"
  }

  /** The dictionary built from the slots, in slot order: a later slot with
      the same hour overwrites an earlier one. */
  function InitialCells(slots: seq<Slot>): (r: map<string, string>)
    ensures forall h :: h in r <==> exists i :: 0 <= i < |slots| && slots[i].hour == h
    decreases |slots|
  {
    if slots == [] then map[]
    else InitialCells(slots[..|slots| - 1])[slots[|slots| - 1].hour := AvailabilityCell(slots[|slots| - 1])]
  }

  /** No slot after position `i` has the hour of slot `i`. */
  predicate LastWithHour(slots: seq<Slot>, i: int)
    requires 0 <= i < |slots|
  {
    forall j :: i < j < |slots| ==> slots[j].hour != slots[i].hour
  }

  /** The cell of an hour is the availability of the last slot with that hour. */
  lemma {:induction false} InitialCellsLast(slots: seq<Slot>, i: nat)
    requires i < |slots| && LastWithHour(slots, i)
    ensures slots[i].hour in InitialCells(slots) && InitialCells(slots)[slots[i].hour] == AvailabilityCell(slots[i])
    decreases |slots|
  {
    if i < |slots| - 1 {
      var init := slots[..|slots| - 1];
      assert slots[|slots| - 1].hour != slots[i].hour;
      assert LastWithHour(init, i);
      InitialCellsLast(init, i);
    }
  }

  /** `if team1 and team2`: a friendly is shown only when both its teams
      still exist. */
  predicate Shown(m: FriendlyMatch, teams: map<TeamId, Team>)
  {
    m.team1 in teams && m.team2 in teams
  }

  /** The cell of a slot that holds a shown friendly. */
  function MatchCell(m: FriendlyMatch, teams: map<TeamId, Team>): (r: string)
    requires Shown(m, teams)
    ensures |r| > 0 && r[0] == '*'
  {
    "**" + teams[m.team1].name + " vs " + teams[m.team2].name + "** \U{26BD}"
  }

  /** No shown friendly after position `i` is in the slot of friendly `i`. */
  predicate LastShownAt(ms: seq<FriendlyMatch>, teams: map<TeamId, Team>, i: int)
    requires 0 <= i < |ms|
  {
    forall j :: i < j < |ms| && ms[j].slot == ms[i].slot ==> !Shown(ms[j], teams)
  }

  /** The loop over the table's friendlies: each shown friendly writes its
      cell under its hour, a later one overwriting an earlier one. A friendly
      whose hour is not a slot of the table adds a cell that is never shown. */
  function ApplyMatches(cells: map<string, string>, ms: seq<FriendlyMatch>, teams: map<TeamId, Team>)
    : (r: map<string, string>)
    ensures forall h :: h in r <==> h in cells || exists i :: 0 <= i < |ms| && Shown(ms[i], teams) && ms[i].slot == h
    decreases |ms|
  {
    if ms == [] then cells
    else
      var prev := ApplyMatches(cells, ms[..|ms| - 1], teams);
      var m := ms[|ms| - 1];
      if Shown(m, teams) then prev[m.slot := MatchCell(m, teams)] else prev
  }

  /** An hour that no shown friendly names keeps its cell. */
  lemma {:induction false} ApplyMatchesUntouched(cells: map<string, string>, ms: seq<FriendlyMatch>,
                                                 teams: map<TeamId, Team>, h: string)
    requires h in cells
    requires forall i :: 0 <= i < |ms| && ms[i].slot == h ==> !Shown(ms[i], teams)
    ensures h in ApplyMatches(cells, ms, teams) && ApplyMatches(cells, ms, teams)[h] == cells[h]
    decreases |ms|
  {
    if ms != [] {
      ApplyMatchesUntouched(cells, ms[..|ms| - 1], teams, h);
    }
  }

  /** The cell of an hour that shown friendlies name is the last one's. */
  lemma {:induction false} ApplyMatchesLast(cells: map<string, string>, ms: seq<FriendlyMatch>,
                                            teams: map<TeamId, Team>, i: nat)
    requires i < |ms| && Shown(ms[i], teams) && LastShownAt(ms, teams, i)
    ensures ms[i].slot in ApplyMatches(cells, ms, teams)
    ensures ApplyMatches(cells, ms, teams)[ms[i].slot] == MatchCell(ms[i], teams)
    decreases |ms|
  {
    var init := ms[..|ms| - 1];
    if i < |ms| - 1 {
      assert LastShownAt(init, teams, i);
      ApplyMatchesLast(cells, init, teams, i);
    }
  }

  /** Of two shown friendlies in the same slot, the table's cell names only
      the later one. */
  lemma LaterFriendlyHidesEarlier(cells: map<string, string>, m1: FriendlyMatch, m2: FriendlyMatch,
                                  teams: map<TeamId, Team>)
    requires Shown(m1, teams) && Shown(m2, teams) && m1.slot == m2.slot
    ensures m1.slot in ApplyMatches(cells, [m1, m2], teams)
    ensures ApplyMatches(cells, [m1, m2], teams)[m1.slot] == MatchCell(m2, teams)
  {
    ApplyMatchesLast(cells, [m1, m2], teams, 1);
  }

  /** The decimal digits of a natural number, most significant first. */
  function NatToDecimal(n: nat): (r: string)
    ensures |r| > 0 && forall k :: 0 <= k < |r| ==> '0' <= r[k] <= '9'
    decreases n
  {
    if n < 10 then [DigitChar(n)] else NatToDecimal(n / 10) + [DigitChar(n % 10)]
  }

  function DigitChar(d: nat): (c: char)
    requires d < 10
    ensures '0' <= c <= '9' && c as int - '0' as int == d
  {
    ['0', '1', '2', '3', '4', '5', '6', '7', '8', '9'][d]
  }

  /** The value of a string of decimal digits. */
  function DecimalValue(s: string): nat
    requires forall k :: 0 <= k < |s| ==> '0' <= s[k] <= '9'
    decreases |s|
  {
    if s == [] then 0 else 10 * DecimalValue(s[..|s| - 1]) + (s[|s| - 1] as int - '0' as int)
  }

  /** Reading back the digits of a number gives the number. */
  lemma {:induction false} DecimalRoundTrip(n: nat)
    ensures DecimalValue(NatToDecimal(n)) == n
    decreases n
  {
    var r := NatToDecimal(n);
    if n >= 10 {
      DecimalRoundTrip(n / 10);
      assert r[..|r| - 1] == NatToDecimal(n / 10);
    }
  }

  /** Python's `str` of an integer. */
  function IntToDecimal(n: int): (r: string)
    ensures n >= 0 ==> r == NatToDecimal(n)
    ensures n < 0 ==> r == "-" + NatToDecimal(-n)
  {
    if n >= 0 then NatToDecimal(n) else "-" + NatToDecimal(-n)
  }

  /** The first lines of the table, up to and including the 30-character rule. */
  function Header(tableId: int): string
  {
    "```\n\U{1F4C5} Tabla de Amistosos (ID: " + IntToDecimal(tableId) + ") \U{1F4C5}\n"
    + "\U{26BD} Horario | Partido \U{26BD}\n" + seq(30, _ => '\U{2550}') + "\n"
  }

  const Footer: string := "```\n"

  /** The line of one slot: a free slot is marked with a white and a green
      circle, every other cell with a stadium. */
  function SlotLine(hour: string, cell: string): string
  {
    if cell == "Disponible" then "\U{26AA} " + hour + " | " + cell + " \U{1F7E2}\n"
    else "\U{1F3DF}\U{FE0F} " + hour + " | " + cell + "\n"
  }

  /** Every slot line ends its line, and it opens with the white circle
      exactly when the cell says the slot is free. */
  lemma SlotLineShape(hour: string, cell: string)
    ensures |SlotLine(hour, cell)| > 0
    ensures SlotLine(hour, cell)[|SlotLine(hour, cell)| - 1] == '\n'
    ensures SlotLine(hour, cell)[0] == '\U{26AA}' <==> cell == "Disponible"
  {
  }

  /** The lines of the slots, in slot order, duplicates included. */
  function Lines(slots: seq<Slot>, cells: map<string, string>): (r: seq<string>)
    requires forall i :: 0 <= i < |slots| ==> slots[i].hour in cells
    ensures |r| == |slots|
    ensures forall i :: 0 <= i < |slots| ==> r[i] == SlotLine(slots[i].hour, cells[slots[i].hour])
  {
    seq(|slots|, i requires 0 <= i < |slots| => SlotLine(slots[i].hour, cells[slots[i].hour]))
  }

  function Concat(ls: seq<string>): string
    decreases |ls|
  {
    if ls == [] then "" else Concat(ls[..|ls| - 1]) + ls[|ls| - 1]
  }

  /** The text of one more slot is the text so far and that slot's line. */
  lemma LinesSnoc(prefix: string, slots: seq<Slot>, cells: map<string, string>, j: nat)
    requires j < |slots| && forall i :: 0 <= i < |slots| ==> slots[i].hour in cells
    ensures prefix + Concat(Lines(slots[..j + 1], cells))
         == prefix + Concat(Lines(slots[..j], cells)) + SlotLine(slots[j].hour, cells[slots[j].hour])
  {
    ConcatLinesSnoc(slots, cells, j);
  }

  /** The lines of the first `j + 1` slots join to those of the first `j`
      followed by the line of slot `j`. */
  lemma ConcatLinesSnoc(slots: seq<Slot>, cells: map<string, string>, j: nat)
    requires j < |slots| && forall i :: 0 <= i < |slots| ==> slots[i].hour in cells
    ensures Concat(Lines(slots[..j + 1], cells))
         == Concat(Lines(slots[..j], cells)) + SlotLine(slots[j].hour, cells[slots[j].hour])
  {
    var ls := Lines(slots[..j + 1], cells);
    assert ls[..j] == Lines(slots[..j], cells);
  }

  /** The final cell dictionary of a table. */
  function FinalCells(slots: seq<Slot>, ms: seq<FriendlyMatch>, teams: map<TeamId, Team>): (r: map<string, string>)
    ensures forall i :: 0 <= i < |slots| ==> slots[i].hour in r
  {
    var init := InitialCells(slots);
    assert forall i :: 0 <= i < |slots| ==> slots[i].hour in ApplyMatches(init, ms, teams) by {
      forall i | 0 <= i < |slots|
        ensures slots[i].hour in ApplyMatches(init, ms, teams)
      {
        assert slots[i].hour in init;
      }
    }
    ApplyMatches(init, ms, teams)
  }

  /** The whole text of a table. */
  function TableText(tableId: int, slots: seq<Slot>, ms: seq<FriendlyMatch>, teams: map<TeamId, Team>): string
  {
    Header(tableId) + Concat(Lines(slots, FinalCells(slots, ms, teams))) + Footer
  }

  /** A table opens with its header, naming its id, and closes the code block. */
  lemma TableTextFrame(tableId: int, slots: seq<Slot>, ms: seq<FriendlyMatch>, teams: map<TeamId, Team>)
    ensures var r := TableText(tableId, slots, ms, teams);
      |r| >= |Header(tableId)| + |Footer|
      && r[..|Header(tableId)|] == Header(tableId)
      && r[|r| - |Footer|..] == Footer
  {
    var body := Concat(Lines(slots, FinalCells(slots, ms, teams)));
    var r := Header(tableId) + body + Footer;
    assert r[..|Header(tableId)|] == Header(tableId);
    assert r[|r| - |Footer|..] == Footer;
  }

  /** `generate_amistosos_table`: the dictionary of availabilities, the
      friendlies written over it, then the header, one line per slot and the
      closing fence. */
  method GenerateTable(tableId: int, slots: seq<Slot>, ms: seq<FriendlyMatch>, teams: map<TeamId, Team>)
    returns (table: string)
    ensures table == TableText(tableId, slots, ms, teams)
  {
    var cells := BuildCells(slots);
    cells := PlaceMatches(cells, ms, teams);
    assert cells == FinalCells(slots, ms, teams);
    table := RenderLines(Header(tableId), slots, cells);
    table := table + "```\n";
  }

  /** The dictionary comprehension over the slots. */
  method BuildCells(slots: seq<Slot>) returns (cells: map<string, string>)
    ensures cells == InitialCells(slots)
  {
    cells := map[];
    var i := 0;
    while i < |slots|
      invariant 0 <= i <= |slots|
      invariant cells == InitialCells(slots[..i])
    {
      assert slots[..i + 1][..i] == slots[..i];
      cells := cells[slots[i].hour := AvailabilityCell(slots[i])];
      i := i + 1;
    }
    assert slots[..|slots|] == slots;
  }

  /** The loop that writes each shown friendly into its slot's cell. */
  method PlaceMatches(init: map<string, string>, ms: seq<FriendlyMatch>, teams: map<TeamId, Team>)
    returns (cells: map<string, string>)
    ensures cells == ApplyMatches(init, ms, teams)
  {
    cells := init;
    var k := 0;
    while k < |ms|
      invariant 0 <= k <= |ms|
      invariant cells == ApplyMatches(init, ms[..k], teams)
    {
      assert ms[..k + 1][..k] == ms[..k];
      var m := ms[k];
      if m.team1 in teams && m.team2 in teams {
        cells := cells[m.slot := MatchCell(m, teams)];
      }
      k := k + 1;
    }
    assert ms[..|ms|] == ms;
  }

  /** The loop that appends one line per slot, in slot order. */
  method RenderLines(prefix: string, slots: seq<Slot>, cells: map<string, string>) returns (table: string)
    requires forall i :: 0 <= i < |slots| ==> slots[i].hour in cells
    ensures table == prefix + Concat(Lines(slots, cells))
  {
    table := prefix;
    var j := 0;
    while j < |slots|
      invariant 0 <= j <= |slots|
      invariant table == prefix + Concat(Lines(slots[..j], cells))
    {
      var hour := slots[j].hour;
      var cell := cells[hour];
      LinesSnoc(prefix, slots, cells, j);
      table := table + SlotLine(hour, cell);
      j := j + 1;
    }
    assert slots[..|slots|] == slots;
  }

  /** The line of a slot whose hour holds a shown friendly: the line of the
      last shown friendly with that hour, never the free-slot marker. */
  lemma BookedSlotLine(slots: seq<Slot>, ms: seq<FriendlyMatch>, teams: map<TeamId, Team>, s: nat, i: nat)
    requires s < |slots| && i < |ms|
    requires Shown(ms[i], teams) && ms[i].slot == slots[s].hour && LastShownAt(ms, teams, i)
    ensures Lines(slots, FinalCells(slots, ms, teams))[s]
         == "\U{1F3DF}\U{FE0F} " + slots[s].hour + " | " + MatchCell(ms[i], teams) + "\n"
  {
    var cell := MatchCell(ms[i], teams);
    ApplyMatchesLast(InitialCells(slots), ms, teams, i);
    assert cell[0] != "Disponible"[0];
  }

  /** The line of a slot whose hour holds no shown friendly: the availability
      of the last slot with that hour. */
  lemma UnbookedSlotLine(slots: seq<Slot>, ms: seq<FriendlyMatch>, teams: map<TeamId, Team>, s: nat, last: nat)
    requires s <= last < |slots| && slots[last].hour == slots[s].hour && LastWithHour(slots, last)
    requires forall i :: 0 <= i < |ms| && ms[i].slot == slots[s].hour ==> !Shown(ms[i], teams)
    ensures Lines(slots, FinalCells(slots, ms, teams))[s]
         == if slots[last].available then "\U{26AA} " + slots[s].hour + " | Disponible \U{1F7E2}\n"
            else "\U{1F3DF}\U{FE0F} " + slots[s].hour + " | Ocupado\n"
  {
    var init := InitialCells(slots);
    var h := slots[s].hour;
    InitialCellsLast(slots, last);
    ApplyMatchesUntouched(init, ms, teams, h);
    var cells := FinalCells(slots, ms, teams);
    assert cells == ApplyMatches(init, ms, teams);
    assert cells[h] == AvailabilityCell(slots[last]);
    assert Lines(slots, cells)[s] == SlotLine(h, cells[h]);
    AvailabilityLine(h, slots[last]);
  }

  /** The line of a slot whose cell is still its availability. */
  lemma AvailabilityLine(h: string, sl: Slot)
    ensures SlotLine(h, AvailabilityCell(sl))
         == if sl.available then "\U{26AA} " + h + " | Disponible \U{1F7E2}\n"
            else "\U{1F3DF}\U{FE0F} " + h + " | Ocupado\n"
  {
    if !sl.available {
      assert |"Ocupado"| != |"Disponible"|;
    }
  }
}
