/** Merging a user into the daemon's environment file: internal/install/install.go, mergeConf and what it
    is made of. */
module AllowLists {
  import opened Bytes
  import opened Texts

  const VARIABLE := "SVPND_ARGS="
  const FLAG := "--allow-uid"
  const FLAG_IS := "--allow-uid="

  type TextLine = s: string | '\n' !in s

  /** The explanation at the top of the file, line by line; nothing depends on its wording. */
  const HEADER: seq<TextLine>

  datatype Args = Args(uids: set<Uid>, others: seq<string>)

  // --- Reading a file ---

  predicate Assigns(line: string) {
    VARIABLE <= TrimSpace(line)
  }

  function Assigned(line: string): string
    requires Assigns(line)
  {
    TrimQuotes(TrimSpace(line)[|VARIABLE|..])
  }

  /** The last assignment wins. */
  function LastAssigned(lines: seq<string>): string {
    if lines == [] then ""
    else if Assigns(lines[|lines| - 1]) then Assigned(lines[|lines| - 1])
    else LastAssigned(lines[..|lines| - 1])
  }

  function Id(text: string): set<Uid> {
    match Atoi(TrimSpace(text))
    case Some(n) => if 0 <= n <= MAX_INT then {n} else {}
    case None => {}
  }

  function Ids(texts: seq<string>): set<Uid> {
    if texts == [] then {} else Id(texts[0]) + Ids(texts[1..])
  }

  function IdList(value: string): set<Uid> {
    Ids(Split(value, ','))
  }

  /** The flag in either of its forms takes its value with it; everything else is carried over. */
  function Sorted(fields: seq<string>): Args
    decreases |fields|
  {
    if fields == [] then Args({}, [])
    else if fields[0] == FLAG && |fields| > 1 then
      var rest := Sorted(fields[2..]);
      rest.(uids := IdList(fields[1]) + rest.uids)
    else if FLAG_IS <= fields[0] then
      var rest := Sorted(fields[1..]);
      rest.(uids := IdList(fields[0][|FLAG_IS|..]) + rest.uids)
    else
      var rest := Sorted(fields[1..]);
      rest.(others := [fields[0]] + rest.others)
  }

  function Parse(file: string): Args {
    Sorted(Fields(LastAssigned(Split(file, '\n'))))
  }

  method ArgsValue(file: string) returns (value: string)
    ensures value == LastAssigned(Split(file, '\n'))
  {
    value := "";
    var lines := Split(file, '\n');
    for i := 0 to |lines|
      invariant value == LastAssigned(lines[..i])
    {
      assert lines[..i + 1][..i] == lines[..i];
      var trimmed := TrimSpace(lines[i]);
      if !(VARIABLE <= trimmed) {
        continue;
      }
      value := TrimQuotes(trimmed[|VARIABLE|..]);
    }
    assert lines[..|lines|] == lines;
  }

  /** Reads the flag's value at index i, moving past it when it was a field of its own. */
  method FlagValue(fields: seq<string>, i: nat) returns (value: Option<string>, next: nat)
    requires i < |fields|
    ensures i <= next < |fields|
    ensures Sorted(fields[i..])
            == (var rest := Sorted(fields[next + 1..]);
                if value.Some? then rest.(uids := IdList(value.value) + rest.uids)
                else rest.(others := [fields[i]] + rest.others))
  {
    var field := fields[i];
    assert fields[i..][0] == field && fields[i..][1..] == fields[i + 1..];
    if field == FLAG && i + 1 < |fields| {
      assert fields[i..][1] == fields[i + 1] && fields[i..][2..] == fields[i + 2..];
      return Some(fields[i + 1]), i + 1;
    }
    if FLAG_IS <= field {
      return Some(field[|FLAG_IS|..]), i;
    }
    return None, i;
  }

  /** The inner loop of parseArgs: what is not a user id is dropped. */
  method AddIds(uids: set<Uid>, value: string) returns (more: set<Uid>)
    ensures more == uids + IdList(value)
  {
    more := uids;
    var texts := Split(value, ',');
    for k := 0 to |texts|
      invariant more + Ids(texts[k..]) == uids + IdList(value)
    {
      assert texts[k..][1..] == texts[k + 1..];
      var parsed := Atoi(TrimSpace(texts[k]));
      if parsed.Some? && parsed.value >= 0 {
        more := more + {parsed.value};
      }
    }
  }

  /** What has been read so far, put before the rest. */
  function Onto(uids: set<Uid>, others: seq<string>, rest: Args): Args {
    Args(uids + rest.uids, others + rest.others)
  }

  lemma OntoJoins(uids: set<Uid>, others: seq<string>, more: set<Uid>, field: string, rest: Args)
    ensures Onto(uids, others, rest.(uids := more + rest.uids)) == Onto(uids + more, others, rest)
    ensures Onto(uids, others, rest.(others := [field] + rest.others)) == Onto(uids, others + [field], rest)
    ensures Onto({}, [], rest) == rest && Onto(uids, others, Sorted([])) == Args(uids, others)
  {
    assert uids + (more + rest.uids) == (uids + more) + rest.uids;
    Associates(others, [field], rest.others);
  }

  method ParseArgs(file: string) returns (args: Args)
    ensures args == Parse(file)
  {
    hide Sorted, IdList, Fields, Split, LastAssigned, Onto;
    var text := ArgsValue(file);
    var fields := Fields(text);
    var uids: set<Uid>, others: seq<string> := {}, [];
    var i := 0;
    assert fields[0..] == fields;
    OntoJoins({}, [], {}, "", Sorted(fields));
    while i < |fields|
      invariant 0 <= i <= |fields|
      invariant Sorted(fields) == Onto(uids, others, Sorted(fields[i..]))
      decreases |fields| - i
    {
      var field := fields[i];
      var value, at := FlagValue(fields, i);
      i := at + 1;
      OntoJoins(uids, others, if value.Some? then IdList(value.value) else {}, field, Sorted(fields[i..]));
      if value.None? {
        others := others + [field];
        continue;
      }
      uids := AddIds(uids, value.value);
    }
    assert fields[i..] == [];
    OntoJoins(uids, others, {}, "", Sorted([]));
    args := Args(uids, others);
  }

  // --- What a file says ---

  /** An assignment may stand among spaces, and its value in quotes. */
  lemma AssignmentIsRead(before: string, open: string, value: string, close: string, after: string)
    requires All(before, IsSpace) && All(after, IsSpace)
    requires forall c :: c in open + close ==> c == '"' || c == '\''
    requires value != [] ==> !IsQuote(value[0]) && !IsQuote(value[|value| - 1]) && !IsSpace(value[|value| - 1])
    ensures var line := before + ("SVPND_ARGS=" + (open + value + close)) + after;
            Assigns(line) && Assigned(line) == value
  {
    var text := VARIABLE + (open + value + close);
    assert forall i :: 0 <= i < |open| ==> open[i] in open + close;
    assert forall i :: 0 <= i < |close| ==> close[i] in open + close;
    var last := text[|text| - 1];
    assert last == '=' || IsQuote(last) || (value != [] && last == value[|value| - 1]);
    assert text[0] == 'S' && !IsSpace(last);
    TrimmedAround(before, text, after, IsSpace);
    assert text[|VARIABLE|..] == open + value + close;
    TrimmedAround(open, value, close, IsQuote);
  }

  /** The last assignment of a file counts, and lines that assign nothing do not. */
  lemma {:induction false} LastAssignmentWins(early: seq<string>, line: string, late: seq<string>)
    requires Assigns(line) && forall i :: 0 <= i < |late| ==> !Assigns(late[i])
    ensures LastAssigned(early + [line] + late) == Assigned(line)
    ensures LastAssigned(late) == ""
  {
    hide Assigns, Assigned;
    var lines := early + [line] + late;
    if late == [] {
      assert lines == early + [line];
    } else {
      assert lines[..|lines| - 1] == early + [line] + late[..|late| - 1];
      LastAssignmentWins(early, line, late[..|late| - 1]);
    }
  }

  /** The field is the bare flag and takes the next one with it. */
  predicate Takes(fields: seq<string>, i: nat)
    requires i < |fields|
    decreases i, 1
  {
    fields[i] == FLAG && i + 1 < |fields| && !IsTaken(fields, i)
  }

  predicate IsTaken(fields: seq<string>, i: nat)
    requires i < |fields|
    decreases i, 0
  {
    i > 0 && Takes(fields, i - 1)
  }

  /** What a field says about who is allowed: all of it behind the bare flag, or what follows the sign. */
  function ListAt(fields: seq<string>, i: nat): Option<string>
    requires i < |fields|
  {
    if IsTaken(fields, i) then Some(fields[i])
    else if FLAG_IS <= fields[i] then Some(fields[i][|FLAG_IS|..])
    else None
  }

  /** The fields that are neither a list nor the flag before one, up to an index. */
  function CarriedOver(fields: seq<string>, end: nat): seq<string>
    requires end <= |fields|
  {
    if end == 0 then []
    else
      CarriedOver(fields, end - 1)
      + if ListAt(fields, end - 1).Some? || Takes(fields, end - 1) then [] else [fields[end - 1]]
  }

  /** One piece of a list is a user id: a number that is not negative, among spaces. */
  predicate Allows(list: string, n: Uid) {
    exists i :: 0 <= i < |Split(list, ',')| && Atoi(TrimSpace(Split(list, ',')[i])) == Some(n)
  }

  lemma {:induction false} IdsAreListed(texts: seq<string>, n: Uid)
    ensures n in Ids(texts) <==> exists i :: 0 <= i < |texts| && Atoi(TrimSpace(texts[i])) == Some(n)
  {
    hide Atoi, TrimSpace;
    if texts != [] {
      IdsAreListed(texts[1..], n);
      assert texts == [texts[0]] + texts[1..];
      if exists i :: 0 <= i < |texts[1..]| && Atoi(TrimSpace(texts[1..][i])) == Some(n) {
        var i :| 0 <= i < |texts[1..]| && Atoi(TrimSpace(texts[1..][i])) == Some(n);
        assert texts[i + 1] == texts[1..][i];
      }
    }
  }

  /** Leaving out fields that are done with changes nothing for the others. */
  lemma {:induction false} TakesLater(fields: seq<string>, k: nat, i: nat)
    requires k + i < |fields| && !IsTaken(fields, k)
    ensures Takes(fields[k..], i) <==> Takes(fields, k + i)
    ensures IsTaken(fields[k..], i) <==> IsTaken(fields, k + i)
  {
    assert fields[k..][i] == fields[k + i];
    if i > 0 {
      TakesLater(fields, k, i - 1);
    }
  }

  lemma ListLater(fields: seq<string>, k: nat, i: nat)
    requires k + i < |fields| && !IsTaken(fields, k)
    ensures ListAt(fields[k..], i) == ListAt(fields, k + i)
  {
    TakesLater(fields, k, i);
  }

  lemma {:induction false} CarriedLater(fields: seq<string>, k: nat, end: nat)
    requires k <= end <= |fields| && (k < |fields| ==> !IsTaken(fields, k))
    ensures CarriedOver(fields, end) == CarriedOver(fields, k) + CarriedOver(fields[k..], end - k)
  {
    if end > k {
      CarriedLater(fields, k, end - 1);
      TakesLater(fields, k, end - 1 - k);
      ListLater(fields, k, end - 1 - k);
      assert fields[k..][end - 1 - k] == fields[end - 1];
    }
  }

  /** Some field lists the user. */
  predicate Listed(fields: seq<string>, n: Uid) {
    exists i | 0 <= i < |fields| :: ListAt(fields, i).Some? && n in IdList(ListAt(fields, i).value)
  }

  lemma ListedLater(fields: seq<string>, k: nat, n: Uid)
    requires 1 <= k <= |fields| && (k < |fields| ==> !IsTaken(fields, k))
    ensures Listed(fields, n) <==>
              || Listed(fields[k..], n)
              || exists i | 0 <= i < k :: ListAt(fields, i).Some? && n in IdList(ListAt(fields, i).value)
  {
    hide IdList;
    forall i | 0 <= i < |fields| - k ensures ListAt(fields[k..], i) == ListAt(fields, k + i) {
      ListLater(fields, k, i);
    }
    if Listed(fields, n) {
      var i :| 0 <= i < |fields| && ListAt(fields, i).Some? && n in IdList(ListAt(fields, i).value);
      if i >= k {
        assert ListAt(fields[k..], i - k) == ListAt(fields, i);
      }
    }
    if Listed(fields[k..], n) {
      var i :| 0 <= i < |fields[k..]| && ListAt(fields[k..], i).Some? && n in IdList(ListAt(fields[k..], i).value);
      assert ListAt(fields, k + i) == ListAt(fields[k..], i);
    }
  }

  lemma FirstFields(fields: seq<string>, k: nat)
    requires fields != [] && k == if fields[0] == FLAG && |fields| > 1 then 2 else 1
    ensures k < |fields| ==> !IsTaken(fields, k)
    ensures CarriedOver(fields, k) == if k == 2 || FLAG_IS <= fields[0] then [] else [fields[0]]
    ensures ListAt(fields, 0) == if FLAG_IS <= fields[0] then Some(fields[0][|FLAG_IS|..]) else None
    ensures k == 2 ==> ListAt(fields, 0) == None && ListAt(fields, 1) == Some(fields[1])
  {
    assert !IsTaken(fields, 0);
    assert Takes(fields, 0) <==> k == 2;
    assert CarriedOver(fields, 0) == [];
    if k == 2 {
      assert IsTaken(fields, 1) && !Takes(fields, 1);
      assert CarriedOver(fields, 1) == [];
    }
  }

  /** Sorting the fields, one by one: the users are those that some list names, and the rest is carried over as it
      stands. */
  lemma {:induction false} SortedMeans(fields: seq<string>)
    ensures forall n: Uid :: n in Sorted(fields).uids <==> Listed(fields, n)
    ensures Sorted(fields).others == CarriedOver(fields, |fields|)
    decreases |fields|
  {
    hide IdList;
    if fields != [] {
      var k := if fields[0] == FLAG && |fields| > 1 then 2 else 1;
      SortedMeans(fields[k..]);
      FirstFields(fields, k);
      CarriedLater(fields, k, |fields|);
      forall n: Uid ensures n in Sorted(fields).uids <==> Listed(fields, n) {
        ListedLater(fields, k, n);
      }
    }
  }
  predicate AllowsAt(fields: seq<string>, i: nat, n: Uid)
    requires i < |fields|
  {
    ListAt(fields, i).Some? && Allows(ListAt(fields, i).value, n)
  }

  /** What a file says: a user is allowed exactly if some field of the last assignment is a list that names the user,
      and every field that is neither a list nor the flag before one is carried over, in order. */
  lemma FileMeans(file: string, n: Uid)
    ensures var fields := Fields(LastAssigned(Split(file, '\n')));
            && (n in Parse(file).uids <==> exists i: nat :: i < |fields| && AllowsAt(fields, i, n))
            && Parse(file).others == CarriedOver(fields, |fields|)
  {
    hide Fields, LastAssigned, Sorted, ListAt, Allows;
    var fields := Fields(LastAssigned(Split(file, '\n')));
    SortedMeans(fields);
    forall i: nat | i < |fields|
      ensures AllowsAt(fields, i, n) <==> ListAt(fields, i).Some? && n in IdList(ListAt(fields, i).value)
    {
      if ListAt(fields, i).Some? {
        ListAllows(ListAt(fields, i).value, n);
      }
    }
    assert n in Sorted(fields).uids <==> Listed(fields, n);
  }

  lemma ListAllows(list: string, n: Uid)
    ensures Allows(list, n) <==> n in IdList(list)
  {
    IdsAreListed(Split(list, ','), n);
  }

  // --- Writing it ---

  predicate Ascending(s: seq<Uid>) {
    forall i, j :: 0 <= i < j < |s| ==> s[i] < s[j]
  }

  ghost predicate Lists(s: seq<Uid>, uids: set<Uid>) {
    Ascending(s) && forall n :: n in s <==> n in uids
  }

  function Insert(s: seq<Uid>, n: Uid): seq<Uid> {
    if s == [] || n < s[0] then [n] + s
    else if n == s[0] then s
    else [s[0]] + Insert(s[1..], n)
  }

  lemma {:induction false} InsertLists(s: seq<Uid>, uids: set<Uid>, n: Uid)
    requires Lists(s, uids)
    ensures Lists(Insert(s, n), uids + {n})
  {
    if s == [] || n <= s[0] {
      assert n < (if s == [] then n + 1 else s[0]) ==> Insert(s, n) == [n] + s;
    } else {
      assert s == [s[0]] + s[1..];
      InsertLists(s[1..], uids - {s[0]}, n);
      var rest := Insert(s[1..], n);
      assert Insert(s, n) == [s[0]] + rest;
      forall i | 0 <= i < |rest| ensures s[0] < rest[i] {
        assert rest[i] in uids - {s[0]} + {n};
      }
    }
  }

  lemma {:induction false} ListExists(uids: set<Uid>)
    ensures exists s :: Lists(s, uids)
  {
    if uids == {} {
      assert Lists([], uids);
    } else {
      var n :| n in uids;
      ListExists(uids - {n});
      var s :| Lists(s, uids - {n});
      InsertLists(s, uids - {n}, n);
      assert uids - {n} + {n} == uids;
      assert Lists(Insert(s, n), uids);
    }
  }

  /** sort.Ints on the members. */
  ghost function InOrder(uids: set<Uid>): (s: seq<Uid>)
    ensures Lists(s, uids)
  {
    ListExists(uids);
    var s :| Lists(s, uids);
    s
  }

  lemma {:induction false} ListIsUnique(s: seq<Uid>, t: seq<Uid>, uids: set<Uid>)
    requires Lists(s, uids) && Lists(t, uids)
    ensures s == t
  {
    assert s != [] ==> s[0] in uids;
    assert t != [] ==> t[0] in uids;
    if s != [] {
      assert s[0] == t[0];
      assert s == [s[0]] + s[1..] && t == [t[0]] + t[1..];
      ListIsUnique(s[1..], t[1..], uids - {s[0]});
    }
  }

  function Formatted(ids: seq<Uid>): (texts: seq<string>)
    ensures |texts| == |ids|
    ensures forall i :: 0 <= i < |ids| ==> texts[i] == Itoa(ids[i])
  {
    if ids == [] then [] else [Itoa(ids[0])] + Formatted(ids[1..])
  }

  ghost function Arguments(args: Args): seq<string> {
    (if args.uids == {} then [] else [FLAG, Join(Formatted(InOrder(args.uids)), ',')]) + args.others
  }

  ghost function Line(args: Args): string {
    VARIABLE + Join(Arguments(args), ' ')
  }

  ghost function Render(args: Args): string {
    Join(HEADER + [Line(args), ""], '\n')
  }

  /** The allowlist with the user added, if there is one to add. */
  function WithUid(args: Args, uid: int): Args
    requires uid <= MAX_INT
  {
    if uid >= 0 then args.(uids := args.uids + {uid}) else args
  }

  ghost function Merge(file: string, uid: int): string
    requires uid <= MAX_INT
  {
    Render(WithUid(Parse(file), uid))
  }

  method SortIds(uids: set<Uid>) returns (ordered: seq<Uid>)
    ensures ordered == InOrder(uids)
  {
    ordered := [];
    var left := uids;
    while left != {}
      invariant left <= uids
      invariant Lists(ordered, uids - left)
      decreases left
    {
      var n :| n in left;
      InsertLists(ordered, uids - left, n);
      assert uids - left + {n} == uids - (left - {n});
      ordered := Insert(ordered, n);
      left := left - {n};
    }
    ListIsUnique(ordered, InOrder(uids), uids);
  }

  method FormatIds(uids: set<Uid>) returns (text: string)
    ensures text == Join(Formatted(InOrder(uids)), ',')
  {
    hide Join, Itoa;
    var ordered := SortIds(uids);
    var formatted := [];
    for i := 0 to |ordered|
      invariant formatted == Formatted(ordered)[..i]
    {
      formatted := formatted + [Itoa(ordered[i])];
    }
    assert formatted == Formatted(ordered);
    text := Join(formatted, ',');
  }

  /** The second half of mergeConf. */
  method Write(uids: set<Uid>, others: seq<string>) returns (text: string)
    ensures text == Render(Args(uids, others))
  {
    hide Join, Formatted, InOrder;
    var args: seq<string> := [];
    if |uids| > 0 {
      var list := FormatIds(uids);
      args := args + [FLAG, list];
    }
    args := args + others;
    assert args == Arguments(Args(uids, others));
    text := Join(HEADER + [VARIABLE + Join(args, ' '), ""], '\n');
  }

  method MergeConf(file: string, uid: int) returns (merged: string)
    requires uid <= MAX_INT
    ensures merged == Merge(file, uid)
  {
    hide Parse, Render;
    var read := ParseArgs(file);
    var uids := read.uids;
    if uid >= 0 {
      uids := uids + {uid};
    }
    merged := Write(uids, read.others);
  }

  // --- What is written is read back ---

  /** What a reader of fields can leave over: the flag only as a last field, never joined to a value. */
  predicate Leftover(fields: seq<string>) {
    && Words(fields)
    && (forall i :: 0 <= i < |fields| ==> !(FLAG_IS <= fields[i]))
    && (forall i :: 0 <= i < |fields| - 1 ==> fields[i] != FLAG)
  }

  lemma {:induction false} SortedLeavesLeftovers(fields: seq<string>)
    requires Words(fields)
    ensures Leftover(Sorted(fields).others)
    decreases |fields|
  {
    if fields != [] {
      if fields[0] == FLAG && |fields| > 1 {
        SortedLeavesLeftovers(fields[2..]);
      } else {
        SortedLeavesLeftovers(fields[1..]);
      }
    }
  }

  lemma {:induction false} SortedIsLighter(fields: seq<string>)
    ensures TotalLength(Sorted(fields).others) <= TotalLength(fields)
    decreases |fields|
  {
    if fields != [] {
      if fields[0] == FLAG && |fields| > 1 {
        SortedIsLighter(fields[2..]);
        assert fields[1..][1..] == fields[2..];
      } else {
        SortedIsLighter(fields[1..]);
        if !(FLAG_IS <= fields[0]) {
          var others := Sorted(fields[1..]).others;
          assert ([fields[0]] + others)[1..] == others;
        }
      }
    }
  }

  lemma {:induction false} LeftoversStayOver(fields: seq<string>)
    requires Leftover(fields)
    ensures Sorted(fields) == Args({}, fields)
    decreases |fields|
  {
    if fields != [] {
      assert fields == [fields[0]] + fields[1..];
      LeftoversStayOver(fields[1..]);
    }
  }

  lemma {:induction false} IdsAreReadBack(ids: seq<Uid>)
    ensures forall n :: n in Ids(Formatted(ids)) <==> n in ids
    ensures forall i :: 0 <= i < |ids| ==> ',' !in Formatted(ids)[i] && Digits(Formatted(ids)[i])
  {
    if ids != [] {
      IdsAreReadBack(ids[1..]);
      AtoiInvertsItoa(ids[0]);
      DigitsStayAsTheyAre(Itoa(ids[0]));
      assert Formatted(ids)[1..] == Formatted(ids[1..]);
    }
  }

  /** The allowlist as a field: one word, no quote at either end, read back whole. */
  lemma ListIsReadBack(uids: set<Uid>)
    requires uids != {}
    ensures var list := Join(Formatted(InOrder(uids)), ',');
            Word(list) && IdList(list) == uids && !IsQuote(list[|list| - 1])
  {
    var ids := InOrder(uids);
    var n :| n in uids;
    assert n in ids;
    IdsAreReadBack(ids);
    SplitInvertsJoin(Formatted(ids), ',');
    DigitsJoined(Formatted(ids));
  }

  lemma {:induction false} DigitsJoined(texts: seq<string>)
    requires texts != [] && forall i :: 0 <= i < |texts| ==> Digits(texts[i])
    ensures var s := Join(texts, ','); Word(s) && IsDigit(s[|s| - 1])
  {
    DigitsStayAsTheyAre(texts[0]);
    if |texts| > 1 {
      DigitsJoined(texts[1..]);
    } else {
      assert texts[0][|texts[0]| - 1] in texts[0];
    }
  }

  lemma {:induction false} JoinHasNoNewline(fields: seq<string>)
    requires Words(fields)
    ensures '\n' !in Join(fields, ' ')
  {
    if |fields| > 1 {
      JoinHasNoNewline(fields[1..]);
    }
  }

  lemma ArgumentsAreWords(args: Args)
    requires Leftover(args.others)
    ensures Words(Arguments(args))
  {
    hide InOrder, Formatted, Join, IdList;
    if args.uids != {} {
      ListIsReadBack(args.uids);
    }
  }

  /** Splitting the file gives back its lines. */
  lemma RenderIsLines(args: Args)
    requires Leftover(args.others)
    ensures Split(Render(args), '\n') == HEADER + [Line(args), ""]
  {
    hide Join, Split, Arguments;
    ArgumentsAreWords(args);
    JoinHasNoNewline(Arguments(args));
    assert '\n' !in VARIABLE;
    var lines := HEADER + [Line(args), ""];
    forall i | 0 <= i < |lines| ensures '\n' !in lines[i] {
      if i < |HEADER| {
        assert lines[i] == HEADER[i];
      }
    }
    SplitInvertsJoin(lines, '\n');
  }

  lemma LineAssigns(args: Args)
    requires Leftover(args.others)
    ensures Assigns(Line(args)) && Assigned(Line(args)) == TrimQuotes(Join(Arguments(args), ' '))
  {
    hide Arguments, TrimQuotes;
    var line := Line(args);
    var joined := Join(Arguments(args), ' ');
    ArgumentsAreWords(args);
    if Arguments(args) != [] {
      EndsOfJoin(Arguments(args));
      var last := Arguments(args)[|Arguments(args)| - 1];
      assert last[|last| - 1] in last;
      assert line[|line| - 1] == joined[|joined| - 1];
    }
    assert line[0] == 'S';
    assert !IsSpace(line[|line| - 1]);
    assert TrimSpace(line) == line;
    assert line[|VARIABLE|..] == joined;
  }

  lemma LastLineCounts(lines: seq<string>, line: string)
    requires Assigns(line)
    ensures LastAssigned(lines + [line, ""]) == Assigned(line)
  {
    hide Assigned;
    assert (lines + [line, ""])[..|lines| + 1] == lines + [line];
    assert !Assigns("");
  }

  lemma ParseOfRender(args: Args)
    requires Leftover(args.others)
    ensures Parse(Render(args)) == Sorted(Fields(TrimQuotes(Join(Arguments(args), ' '))))
  {
    hide Join, Arguments, TrimQuotes, Sorted, Fields, Render, Line, Assigned, Assigns;
    RenderIsLines(args);
    LineAssigns(args);
    LastLineCounts(HEADER, Line(args));
  }

  /** What is read back of the other flags once the quotes at the line's end are gone. */
  function Trimmed(others: seq<string>): Args {
    Sorted(Fields(TrimRight(Join(others, ' '), IsQuote)))
  }

  /** With an allowlist in front, only the end of the line is at risk. */
  lemma ReadBackBehindTheList(args: Args)
    requires Leftover(args.others) && args.uids != {}
    ensures Parse(Render(args)) == Args(args.uids + Trimmed(args.others).uids, Trimmed(args.others).others)
  {
    hide Fields, IdList, Join, TrimQuotes, TrimRight, InOrder, Formatted, Parse, Render;
    ParseOfRender(args);
    ListIsReadBack(args.uids);
    var list := Join(Formatted(InOrder(args.uids)), ',');
    var rest := Fields(TrimRight(Join(args.others, ' '), IsQuote));
    assert Arguments(args) == [FLAG, list] + args.others;
    FieldsBehindTheList(list, args.others);
    assert ([FLAG, list] + rest)[2..] == rest;
  }

  lemma FieldsBehindTheList(list: string, others: seq<string>)
    requires Word(list) && !IsQuote(list[|list| - 1])
    ensures Fields(TrimQuotes(Join([FLAG, list] + others, ' ')))
            == [FLAG, list] + Fields(TrimRight(Join(others, ' '), IsQuote))
  {
    hide Fields, Join;
    var head := FLAG + [' '] + list;
    HeadIsTwoFields(list);
    JoinOfThree(list, others);
    if others == [] {
      assert head[|head| - 1] == list[|list| - 1] && head[0] == '-';
      assert head + [] == head && TrimQuotes(head) == head;
      NothingLeft();
      assert [FLAG, list] + [] == [FLAG, list];
    } else {
      var tail := Join(others, ' ');
      TrimRightStops(head, ' ', tail, IsQuote);
      assert head + ([' '] + tail) == head + [' '] + tail;
      var value := head + [' '] + TrimRight(tail, IsQuote);
      assert value[0] == '-';
      assert TrimQuotes(head + [' '] + tail) == value;
      FieldsAroundSpace(head, ' ', TrimRight(tail, IsQuote));
    }
  }

  lemma NothingLeft()
    ensures Fields(TrimRight(Join([], ' '), IsQuote)) == []
  {
  }

  lemma HeadIsTwoFields(list: string)
    requires Word(list)
    ensures Fields(FLAG + [' '] + list) == [FLAG, list]
  {
    hide Fields;
    assert Word(FLAG);
    OneWord(FLAG);
    OneWord(list);
    FieldsAroundSpace(FLAG, ' ', list);
  }

  lemma JoinOfThree(list: string, others: seq<string>)
    ensures Join([FLAG, list] + others, ' ')
            == FLAG + [' '] + list + (if others == [] then [] else [' '] + Join(others, ' '))
  {
    var fields := [FLAG, list] + others;
    assert fields[1..] == [list] + others;
    assert fields[1..][1..] == others;
    assert FLAG + [' '] + (list + [' '] + Join(others, ' ')) == FLAG + [' '] + list + ([' '] + Join(others, ' '));
  }

  /** No quote where the line of arguments begins or ends. */
  predicate Clean(args: Args) {
    args.others == []
    || (var last := args.others[|args.others| - 1];
        && (last != [] ==> !IsQuote(last[|last| - 1]))
        && (args.uids == {} && args.others[0] != [] ==> !IsQuote(args.others[0][0])))
  }

  lemma TrimmedIfQuoted(others: seq<string>)
    requires Leftover(others)
    ensures others == [] || !IsQuote(others[|others| - 1][|others[|others| - 1]| - 1])
            ==> Trimmed(others) == Args({}, others)
    ensures others != [] && IsQuote(others[|others| - 1][|others[|others| - 1]| - 1])
            ==> TotalLength(Trimmed(others).others) < TotalLength(others)
  {
    hide Sorted, Fields;
    var joined := Join(others, ' ');
    FieldsInvertsJoin(others);
    LeftoversStayOver(others);
    FieldsKeepWeight(joined);
    TrimRightIsLighter(joined);
    FieldsKeepWeight(TrimRight(joined, IsQuote));
    SortedIsLighter(Fields(TrimRight(joined, IsQuote)));
    if others != [] {
      EndsOfJoin(others);
    }
  }

  lemma WholeLineIfQuoted(others: seq<string>)
    requires Leftover(others)
    ensures var t := Sorted(Fields(TrimQuotes(Join(others, ' '))));
            if Clean(Args({}, others)) then t == Args({}, others) else TotalLength(t.others) < TotalLength(others)
  {
    hide Sorted, Fields;
    var joined := Join(others, ' ');
    FieldsInvertsJoin(others);
    LeftoversStayOver(others);
    FieldsKeepWeight(joined);
    TrimQuotesIsLighter(joined);
    FieldsKeepWeight(TrimQuotes(joined));
    SortedIsLighter(Fields(TrimQuotes(joined)));
    if others != [] {
      EndsOfJoin(others);
    }
  }

  /** A written file is read back as what was written exactly when no quote stands at either end of the
      argument line; otherwise it is the other flags that come back shorter. */
  lemma ReadBackIffClean(args: Args)
    requires Leftover(args.others)
    ensures Clean(args) ==> Parse(Render(args)) == args
    ensures !Clean(args) ==> TotalLength(Parse(Render(args)).others) < TotalLength(args.others)
  {
    hide Parse, Render, Sorted, Fields, TrimQuotes;
    if args.uids == {} {
      ParseOfRender(args);
      assert Arguments(args) == args.others;
      WholeLineIfQuoted(args.others);
    } else {
      ReadBackBehindTheList(args);
      TrimmedIfQuoted(args.others);
      assert args.uids + {} == args.uids;
    }
  }

  lemma ParseLeavesLeftovers(file: string)
    ensures Leftover(Parse(file).others)
  {
    FieldsAreWords(LastAssigned(Split(file, '\n')));
    SortedLeavesLeftovers(Fields(LastAssigned(Split(file, '\n'))));
  }

  // --- Main results about merging ---

  /** Merging keeps every user id and every other flag, in order, and adds the user: for every file, exactly
      when the flags carried over leave no quote at an end of the line. */
  lemma MergeKeepsEverything(file: string, uid: int)
    requires uid <= MAX_INT
    ensures Parse(Merge(file, uid)) == WithUid(Parse(file), uid) <==> Clean(WithUid(Parse(file), uid))
  {
    hide Parse, Render;
    ParseLeavesLeftovers(file);
    ReadBackIffClean(WithUid(Parse(file), uid));
  }

  /** Installing twice is installing once, under exactly the same condition. */
  lemma MergeIsIdempotent(file: string, uid: int)
    requires uid <= MAX_INT
    ensures Merge(Merge(file, uid), uid) == Merge(file, uid) <==> Clean(WithUid(Parse(file), uid))
  {
    hide Parse, Render, Clean;
    var args := WithUid(Parse(file), uid);
    ParseLeavesLeftovers(file);
    ReadBackIffClean(args);
    var again := WithUid(Parse(Merge(file, uid)), uid);
    ParseLeavesLeftovers(Merge(file, uid));
    if Clean(args) {
      assert again == args;
    } else {
      assert again.others != args.others;
      if Render(again) == Render(args) {
        RenderIsInjective(again, args);
      }
    }
  }

  lemma RenderIsInjective(x: Args, y: Args)
    requires Leftover(x.others) && Leftover(y.others) && Render(x) == Render(y)
    ensures x.others == y.others
  {
    hide Join, Fields;
    RenderIsLines(x);
    RenderIsLines(y);
    var i := |HEADER|;
    assert (HEADER + [Line(x), ""])[i] == Line(x) && (HEADER + [Line(y), ""])[i] == Line(y);
    assert Line(x)[|VARIABLE|..] == Join(Arguments(x), ' ');
    assert Line(y)[|VARIABLE|..] == Join(Arguments(y), ' ');
    ArgumentsAreWords(x);
    ArgumentsAreWords(y);
    FieldsInvertsJoin(Arguments(x));
    FieldsInvertsJoin(Arguments(y));
    OthersOfArguments(x);
    OthersOfArguments(y);
  }

  /** Whether there is an allowlist, and so where the other flags begin, can be told from the arguments. */
  lemma OthersOfArguments(args: Args)
    requires Leftover(args.others)
    ensures args.uids != {} <==> |Arguments(args)| > 1 && Arguments(args)[0] == FLAG
    ensures args.others == Arguments(args)[if args.uids != {} then 2 else 0..]
  {
  }

  /** The order in which two users install does not matter, whatever the file held. */
  lemma OrderOfInstallsIsIrrelevant(file: string, u: int, v: int)
    requires 0 <= u <= MAX_INT && 0 <= v <= MAX_INT
    ensures Merge(Merge(file, u), v) == Merge(Merge(file, v), u)
  {
    hide Parse, Render, Trimmed;
    var args := Parse(file);
    ParseLeavesLeftovers(file);
    ReadBackBehindTheList(WithUid(args, u));
    ReadBackBehindTheList(WithUid(args, v));
    var t := Trimmed(args.others);
    assert args.uids + {u} + t.uids + {v} == args.uids + {v} + t.uids + {u};
  }

  /** A file whose value ends in a quoted space carries over a flag that ends in a quote, and the second
      install drops that quote. */
  lemma QuotesAreLost(file: string, uid: Uid)
    requires Parse(file).others == ["x\""]
    ensures Merge(Merge(file, uid), uid) != Merge(file, uid)
  {
    hide Parse, Render;
    MergeIsIdempotent(file, uid);
    assert !Clean(WithUid(Parse(file), uid));
  }

  lemma SuchAFileExists() returns (file: string)
    ensures Parse(file).others == ["x\""]
  {
    hide Sorted, TrimQuotes, TrimSpace;
    var value := "\"x\" \"";
    file := VARIABLE + value;
    assert '\n' !in VARIABLE && '\n' !in value;
    SplitOfOne(file, '\n');
    assert TrimSpace(file) == file by { EndsStay(file); }
    assert file[|VARIABLE|..] == value;
    assert LastAssigned([file]) == TrimQuotes(value);
    QuotesTrimmed();
    FieldsAroundSpace("x\"", ' ', "");
    OneWord("x\"");
    assert Fields("") == [];
    assert Fields(TrimQuotes(value)) == ["x\""];
    assert Parse(file) == Sorted(Fields(LastAssigned([file])));
    LeftoversStayOver(["x\""]);
  }

  lemma EndsStay(s: string)
    requires s != [] && !IsSpace(s[0]) && !IsSpace(s[|s| - 1])
    ensures TrimSpace(s) == s
  {
  }

  lemma QuotesTrimmed()
    ensures TrimQuotes("\"x\" \"") == "x\"" + [' '] + ""
  {
    var value := "\"x\" \"";
    var kept := "x\" ";
    assert value == ['"'] + kept + ['"'];
    TrimRightStops("\"x\"", ' ', "\"", IsQuote);
    assert TrimRight("\"", IsQuote) == "" by {
      assert "\""[..0] == "";
    }
    assert value == "\"x\"" + [' '] + "\"";
    assert TrimRight(value, IsQuote) == ['"'] + kept;
    assert (['"'] + kept)[1..] == kept;
    assert kept[0] == 'x' && TrimLeft(kept, IsQuote) == kept;
    assert "x\"" + [' '] + "" == kept;
  }
}
