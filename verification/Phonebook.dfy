/**
 The phonebook file: one line `id|name|surname` per person.  Saving prints the lines, loading reads
 them back with one scanf format, at most two records of them.
 */
module Phonebook {
  import opened Decimal
  import opened Options

  const MAX_LOADED: nat := 2    // MAX_LENGHT_STRUCT
  const FIELD_SIZE: nat := 30   // MAX_LENGHT, with the terminator
  const LINE_SIZE: nat := 90    // the buffer of one line, with the terminator

  datatype Person = Person(id: int, name: string, surname: string)

  // ---------- Saving ----------

  function Line(p: Person): string {
    Print(p.id) + "|" + p.name + "|" + p.surname + "\n"
  }

  function Saved(ps: seq<Person>): string {
    if ps == [] then "" else Fitted(Line(ps[0]), LINE_SIZE) + Saved(ps[1..])
  }

  method SaveToFile(user: seq<Person>) returns (file: string)
    ensures file == Saved(user)
  {
    file := "";
    var i := 0;
    while i < |user|
      invariant 0 <= i <= |user|
      invariant file + Saved(user[i..]) == Saved(user)
    {
      var data := Fitted(Line(user[i]), LINE_SIZE);
      ghost var before := file;
      file := file + data;
      assert user[i..][1..] == user[i + 1..];
      assert before + (data + Saved(user[i + 1..])) == file + Saved(user[i + 1..]);
      i := i + 1;
    }
    assert file + "" == file;
  }

  // ---------- Reading with the format %d|%29[^|]|%29[^\n] and a final white space ----------

  predicate IsSpace(c: char) {
    c == ' ' || '\t' <= c <= '\r'
  }

  function SkipSpace(s: string): string {
    if s != [] && IsSpace(s[0]) then SkipSpace(s[1..]) else s
  }

  function DigitCount(s: string): (k: nat)
    ensures k <= |s| && forall i :: 0 <= i < k ==> IsDigit(s[i])
    ensures k < |s| ==> !IsDigit(s[k])
  {
    if s == [] || !IsDigit(s[0]) then 0 else 1 + DigitCount(s[1..])
  }

  /** A run of digits and what follows it. */
  function ScanNat(u: string): Option<(int, string)> {
    var k := DigitCount(u);
    if k == 0 then None else Some((ValueOf(u[..k]), u[k..]))
  }

  /** %d: white space, a sign if there is one, and digits. */
  function ScanInt(s: string): Option<(int, string)> {
    var t := SkipSpace(s);
    if t != [] && t[0] == '-' then
      match ScanNat(t[1..])
      case None => None
      case Some((v, rest)) => Some((-v, rest))
    else ScanNat(if t != [] && t[0] == '+' then t[1..] else t)
  }

  /** %29[^c]: at most 29 characters other than `c`, at least one. */
  function FieldLength(s: string, c: char, max: nat): (k: nat)
    ensures k <= |s| && k <= max
    ensures forall i :: 0 <= i < k ==> s[i] != c
    ensures k < |s| && k < max ==> s[k] == c
  {
    if max == 0 || s == [] || s[0] == c then 0 else 1 + FieldLength(s[1..], c, max - 1)
  }

  function ScanField(s: string, c: char): Option<(string, string)> {
    var k := FieldLength(s, c, FIELD_SIZE - 1);
    if k == 0 then None else Some((s[..k], s[k..]))
  }

  function ScanBar(s: string): Option<string> {
    if s != [] && s[0] == '|' then Some(s[1..]) else None
  }

  /** One fscanf call: None unless all three fields are read. */
  function ScanPerson(s: string): Option<(Person, string)> {
    match ScanInt(s)
    case None => None
    case Some((id, s1)) =>
      match ScanBar(s1)
      case None => None
      case Some(s2) => ScanNames(id, s2)
  }

  function ScanNames(id: int, s: string): Option<(Person, string)> {
    match ScanField(s, '|')
    case None => None
    case Some((name, s1)) =>
      match ScanBar(s1)
      case None => None
      case Some(s2) =>
        match ScanField(s2, '\n')
        case None => None
        case Some((surname, s3)) => Some((Person(id, name, surname), SkipSpace(s3)))
  }

  function Loaded(s: string, limit: nat): seq<Person>
    decreases limit
  {
    if limit == 0 then []
    else match ScanPerson(s)
      case None => []
      case Some((p, rest)) => [p] + Loaded(rest, limit - 1)
  }

  /** Where the loading stops: the text of the call that failed, or what follows the last record. */
  function Unread(s: string, limit: nat): string
    decreases limit
  {
    if limit == 0 then s
    else match ScanPerson(s)
      case None => s
      case Some((_, rest)) => Unread(rest, limit - 1)
  }

  /** What one fscanf call leaves in the element `p`: each field is stored as soon as it is read, so a call that
      fails later has still changed the fields before. */
  function Stored(s: string, p: Person): Person {
    match ScanInt(s)
    case None => p
    case Some((id, s1)) =>
      match ScanBar(s1)
      case None => p.(id := id)
      case Some(s2) => StoredNames(s2, p.(id := id))
  }

  function StoredNames(s: string, p: Person): Person {
    match ScanField(s, '|')
    case None => p
    case Some((name, s1)) =>
      match ScanBar(s1)
      case None => p.(name := name)
      case Some(s2) =>
        match ScanField(s2, '\n')
        case None => p.(name := name)
        case Some((surname, _)) => p.(name := name, surname := surname)
  }

  /** A call that reads all three fields stores the record; one that fails leaves every element as it was iff it
      read no number. */
  lemma StoredIsScanned(s: string)
    ensures ScanPerson(s).Some? ==> forall p :: Stored(s, p) == ScanPerson(s).value.0
    ensures ScanPerson(s).None? ==> ((forall p :: Stored(s, p) == p) <==> ScanInt(s).None?)
  {
    if ScanPerson(s).None? && ScanInt(s).Some? {
      var other := Person(ScanInt(s).value.0 + 1, "", "");
      assert Stored(s, other).id != other.id;
    }
  }

  /** One fscanf call on element `i`: the number of fields converted, stored one after the other. */
  method Fscanf(s: string, user: array<Person>, i: nat) returns (converted: nat, rest: string)
    requires i < user.Length
    modifies user
    ensures converted <= 3 && (converted == 3 <==> ScanPerson(s).Some?)
    ensures converted == 3 ==> rest == ScanPerson(s).value.1
    ensures user[i] == Stored(s, old(user[i]))
    ensures forall j :: 0 <= j < user.Length && j != i ==> user[j] == old(user[j])
  {
    converted, rest := 0, s;
    hide ScanInt;
    hide ScanField;
    var number := ScanInt(rest);
    if number.None? {
      return;
    }
    user[i] := user[i].(id := number.value.0);
    converted := 1;
    var bar := ScanBar(number.value.1);
    if bar.None? {
      return;
    }
    var name := ScanField(bar.value, '|');
    if name.None? {
      return;
    }
    user[i] := user[i].(name := name.value.0);
    converted := 2;
    bar := ScanBar(name.value.1);
    if bar.None? {
      return;
    }
    var surname := ScanField(bar.value, '\n');
    if surname.None? {
      return;
    }
    user[i] := user[i].(surname := surname.value.0);
    converted := 3;
    rest := SkipSpace(surname.value.1);
  }

  method LoadFromFile(file: string, user: array<Person>) returns (userCount: nat)
    requires user.Length >= MAX_LOADED
    modifies user
    ensures userCount <= MAX_LOADED && user[..userCount] == Loaded(file, MAX_LOADED)
    ensures userCount < MAX_LOADED ==> user[userCount] == Stored(Unread(file, MAX_LOADED), old(user[userCount]))
    ensures userCount == MAX_LOADED < user.Length ==> user[userCount] == old(user[userCount])
    ensures forall i :: userCount < i < user.Length ==> user[i] == old(user[i])
  {
    hide ScanPerson;
    hide Stored;
    userCount := 0;
    var rest := file;
    ghost var got: seq<Person> := [];
    while true
      invariant userCount == |got| < MAX_LOADED && user[..userCount] == got
      invariant got + Loaded(rest, MAX_LOADED - userCount) == Loaded(file, MAX_LOADED)
      invariant Unread(rest, MAX_LOADED - userCount) == Unread(file, MAX_LOADED)
      invariant forall i :: userCount <= i < user.Length ==> user[i] == old(user[i])
      decreases MAX_LOADED - userCount
    {
      StoredIsScanned(rest);
      var converted, next := Fscanf(rest, user, userCount);
      if converted != 3 {
        return;
      }
      LoadedNext(got, rest, MAX_LOADED - userCount);
      rest := next;
      got := got + [user[userCount]];
      userCount := userCount + 1;
      if userCount >= MAX_LOADED {
        return;
      }
    }
  }

  lemma LoadedNext(got: seq<Person>, s: string, limit: nat)
    requires limit > 0 && ScanPerson(s).Some?
    ensures var (p, rest) := ScanPerson(s).value;
            got + Loaded(s, limit) == got + [p] + Loaded(rest, limit - 1)
  {
  }

  // ---------- What can be entered ----------

  /** A field as addPerson and editPerson read it: one line, cut at 29 characters. */
  function Entered(input: string): (f: string)
    ensures |f| <= 29 && '\n' !in f
    ensures f <= input && (f == input || |f| == 29 || input[|f|] == '\n')
  {
    input[..FieldLength(input, '\n', FIELD_SIZE - 1)]
  }

  /** A record whose fields are bounded as input bounds them. */
  predicate Enterable(p: Person) {
    && -0x8000_0000 <= p.id < 0x8000_0000
    && |p.name| <= 29 && '\n' !in p.name
    && |p.surname| <= 29 && '\n' !in p.surname
  }

  /** No line is cut by the buffer. */
  lemma LinesFit(p: Person)
    requires Enterable(p)
    ensures Fitted(Line(p), LINE_SIZE) == Line(p)
  {
    PrintLength(p.id);
  }

  // ---------- The round trip ----------

  /** A record that a saved line keeps apart: both names given, and no bar in the first. */
  predicate Clear(p: Person) {
    p.name != "" && '|' !in p.name && p.surname != ""
  }

  lemma {:induction false} DigitCountStops(s: string, rest: string)
    requires forall i :: 0 <= i < |s| ==> IsDigit(s[i])
    requires rest == [] || !IsDigit(rest[0])
    ensures DigitCount(s + rest) == |s|
  {
    if s == [] {
      assert s + rest == rest;
    } else {
      assert (s + rest)[1..] == s[1..] + rest;
      DigitCountStops(s[1..], rest);
    }
  }

  lemma ScanDigits(n: nat, rest: string)
    requires rest == [] || !IsDigit(rest[0])
    ensures ScanNat(Digits(n) + rest) == Some((n, rest))
  {
    DigitCountStops(Digits(n), rest);
    ValueOfDigits(n);
    assert (Digits(n) + rest)[..|Digits(n)|] == Digits(n);
  }

  lemma ScanPrinted(n: int, rest: string)
    requires rest == [] || !IsDigit(rest[0])
    ensures ScanInt(Print(n) + rest) == Some((n, rest))
  {
    hide ScanNat;
    hide Digits;
    var t := Print(n) + rest;
    assert t[0] == Print(n)[0] && SkipSpace(t) == t;
    if n < 0 {
      ScanDigits(-n, rest);
      assert t[1..] == Digits(-n) + rest;
    } else {
      ScanDigits(n, rest);
    }
  }

  /** A number may stand behind any white space, and behind a plus sign. */
  lemma {:induction false} ScanIntSkips(w: string, s: string)
    requires forall i :: 0 <= i < |w| ==> w[i] as int in {9, 10, 11, 12, 13, 32}
    ensures ScanInt(w + s) == ScanInt(s)
  {
    if w == [] {
      assert w + s == s;
    } else {
      assert (w + s)[1..] == w[1..] + s;
      ScanIntSkips(w[1..], s);
      assert SkipSpace(w + s) == SkipSpace(w[1..] + s);
    }
  }

  lemma ScanPlus(n: nat, rest: string)
    requires rest == [] || !IsDigit(rest[0])
    ensures ScanInt("+" + Digits(n) + rest) == Some((n, rest))
  {
    hide ScanNat;
    hide Digits;
    var t := "+" + Digits(n) + rest;
    assert SkipSpace(t) == t && t[1..] == Digits(n) + rest;
    ScanDigits(n, rest);
  }

  lemma {:induction false} FieldStops(f: string, c: char, rest: string, max: nat)
    requires c !in f && |f| <= max
    requires rest != [] && rest[0] == c
    ensures FieldLength(f + rest, c, max) == |f|
  {
    if f == [] {
      assert f + rest == rest;
    } else {
      assert (f + rest)[1..] == f[1..] + rest;
      FieldStops(f[1..], c, rest, max - 1);
    }
  }

  lemma ScanFieldStops(f: string, c: char, rest: string)
    requires c !in f && |f| < FIELD_SIZE && rest != [] && rest[0] == c
    ensures ScanField(f + rest, c) == if f == "" then None else Some((f, rest))
  {
    FieldStops(f, c, rest, FIELD_SIZE - 1);
    assert (f + rest)[..|f|] == f && (f + rest)[|f|..] == rest;
  }

  /** The text of a line after the id. */
  function Names(p: Person, rest: string): string {
    p.name + ("|" + (p.surname + ("\n" + rest)))
  }

  lemma ClearNamesScan(p: Person, rest: string)
    requires Enterable(p) && Clear(p)
    ensures ScanNames(p.id, Names(p, rest)) == Some((p, SkipSpace("\n" + rest)))
  {
    var tail := p.surname + ("\n" + rest);
    ScanFieldStops(p.name, '|', "|" + tail);
    assert ("|" + tail)[1..] == tail;
    ScanFieldStops(p.surname, '\n', "\n" + rest);
  }

  /** The first bar of a name that has one. */
  lemma {:induction false} FirstBar(s: string) returns (j: nat)
    requires '|' in s
    ensures j < |s| && s[j] == '|' && '|' !in s[..j]
  {
    if s[0] == '|' {
      j := 0;
    } else {
      j := FirstBar(s[1..]);
      assert s[..j + 1] == [s[0]] + s[1..][..j];
      j := j + 1;
    }
  }

  lemma UnclearNamesLost(p: Person, rest: string)
    requires Enterable(p) && !Clear(p)
    ensures var r := ScanNames(p.id, Names(p, rest)); r.None? || r.value.0 != p
  {
    var tail := p.surname + ("\n" + rest);
    if '|' in p.name {
      var j := FirstBar(p.name);
      var f, after := p.name[..j], p.name[j..] + ("|" + tail);
      assert Names(p, rest) == f + after && after[0] == '|';
      ScanFieldStops(f, '|', after);
    } else {
      ScanFieldStops(p.name, '|', "|" + tail);
      assert ("|" + tail)[1..] == tail;
      ScanFieldStops(p.surname, '\n', "\n" + rest);
    }
  }

  /** A saved line is read back as it was iff the record is clear. */
  lemma LineRoundTrip(p: Person, rest: string)
    requires Enterable(p)
    ensures Clear(p) ==> ScanPerson(Line(p) + rest) == Some((p, SkipSpace("\n" + rest)))
    ensures !Clear(p) ==> ScanPerson(Line(p) + rest).None? || ScanPerson(Line(p) + rest).value.0 != p
  {
    var after := "|" + Names(p, rest);
    assert Line(p) + rest == Print(p.id) + after;
    ScanPrinted(p.id, after);
    assert after[1..] == Names(p, rest);
    assert ScanPerson(Line(p) + rest) == ScanNames(p.id, Names(p, rest));
    if Clear(p) {
      ClearNamesScan(p, rest);
    } else {
      UnclearNamesLost(p, rest);
    }
  }

  /** A saved file starts with no white space, so the one skipped is the line's own. */
  lemma SkipToNext(ps: seq<Person>)
    requires forall p :: p in ps ==> Enterable(p)
    ensures SkipSpace("\n" + Saved(ps)) == Saved(ps)
  {
    assert ("\n" + Saved(ps))[1..] == Saved(ps);
    if ps != [] {
      LinesFit(ps[0]);
      assert Saved(ps)[0] == Print(ps[0].id)[0];
    }
  }

  function Min(a: nat, b: nat): nat {
    if a <= b then a else b
  }

  lemma EmptyFile(limit: nat)
    ensures Loaded("", limit) == []
  {
    assert SkipSpace("") == "" && DigitCount("") == 0;
  }

  /** One record more on both sides of the round trip. */
  lemma LoadedSaved(ps: seq<Person>, limit: nat)
    requires ps != [] && limit > 0 && forall p :: p in ps ==> Enterable(p)
    ensures Clear(ps[0]) ==> Loaded(Saved(ps), limit) == [ps[0]] + Loaded(Saved(ps[1..]), limit - 1)
    ensures !Clear(ps[0]) ==> Loaded(Saved(ps), limit) == [] || Loaded(Saved(ps), limit)[0] != ps[0]
  {
    assert ps[0] in ps && forall q :: q in ps[1..] ==> q in ps;
    LinesFit(ps[0]);
    LineRoundTrip(ps[0], Saved(ps[1..]));
    SkipToNext(ps[1..]);
  }

  /** Loading what was saved gives back the first records, as many as fit, iff each of those is clear. */
  lemma {:induction false} RoundTrip(ps: seq<Person>, limit: nat)
    requires forall p :: p in ps ==> Enterable(p)
    ensures Loaded(Saved(ps), limit) == ps[..Min(limit, |ps|)]
            <==> forall i :: 0 <= i < Min(limit, |ps|) ==> Clear(ps[i])
    decreases limit
  {
    hide ScanPerson;
    hide Clear;
    hide Enterable;
    if ps == [] {
      EmptyFile(limit);
    } else if limit > 0 {
      var n := Min(limit, |ps|);
      LoadedSaved(ps, limit);
      RoundTrip(ps[1..], limit - 1);
      OneMore(ps, n, Loaded(Saved(ps), limit), Loaded(Saved(ps[1..]), limit - 1));
    }
  }

  lemma OneMore(ps: seq<Person>, n: nat, loaded: seq<Person>, after: seq<Person>)
    requires 0 < n <= |ps|
    requires Clear(ps[0]) ==> loaded == [ps[0]] + after
    requires !Clear(ps[0]) ==> loaded == [] || loaded[0] != ps[0]
    requires after == ps[1..][..n - 1] <==> forall i :: 0 <= i < n - 1 ==> Clear(ps[1..][i])
    ensures loaded == ps[..n] <==> forall i :: 0 <= i < n ==> Clear(ps[i])
  {
    assert ps[..n] == [ps[0]] + ps[1..][..n - 1];
    if Clear(ps[0]) {
      assert loaded[1..] == after && ps[..n][1..] == ps[1..][..n - 1];
      assert forall i :: 0 < i < n ==> ps[i] == ps[1..][i - 1];
    } else {
      assert loaded != [] ==> loaded[0] != ps[..n][0];
    }
  }

  /** The round trip of the program: what loadFromFile reads of what saveToFile wrote. */
  method SaveThenLoad(user: seq<Person>) returns (back: array<Person>, n: nat)
    requires forall p :: p in user ==> Enterable(p)
    ensures n <= back.Length
    ensures back[..n] == user[..Min(2, |user|)] <==> forall i :: 0 <= i < Min(2, |user|) ==> Clear(user[i])
  {
    var file := SaveToFile(user);
    back := new Person[FIELD_SIZE](_ => Person(0, "", ""));
    n := LoadFromFile(file, back);
    RoundTrip(user, MAX_LOADED);
  }

  /** A record without a surname does not come back, but loading what was saved of it overwrites the id and the
      name of the first element, which is not counted. */
  lemma EmptySurnameLeavesTraces(p: Person, before: Person)
    requires Enterable(p) && p.name != "" && '|' !in p.name && p.surname == ""
    ensures Loaded(Saved([p]), MAX_LOADED) == [] && Unread(Saved([p]), MAX_LOADED) == Saved([p])
    ensures Stored(Saved([p]), before) == Person(p.id, p.name, before.surname)
  {
    hide ScanInt;
    hide ScanField;
    hide Print;
    LinesFit(p);
    var after := "|" + Names(p, "");
    assert Saved([p]) == Line(p) + Saved([]) == Print(p.id) + after;
    ScanPrinted(p.id, after);
    assert after[1..] == Names(p, "");
    var tail := p.surname + ("\n" + "");
    ScanFieldStops(p.name, '|', "|" + tail);
    assert ("|" + tail)[1..] == tail;
    ScanFieldStops(p.surname, '\n', "\n" + "");
  }

  /** The shortest such file, written for a person 1 named "a" without a surname. */
  lemma PartialScanCounterexample(before: Person)
    ensures Saved([Person(1, "a", "")]) == "1|a|\n"
    ensures Loaded("1|a|\n", MAX_LOADED) == []
    ensures Stored("1|a|\n", before) == Person(1, "a", before.surname)
  {
    var p := Person(1, "a", "");
    LinesFit(p);
    assert Print(1) == "1";
    assert Saved([p]) == Line(p) + "" == "1|a|\n";
    EmptySurnameLeavesTraces(p, before);
  }

  /** A name with a bar comes back cut. */
  lemma BarCounterexample()
    ensures Loaded(Saved([Person(1, "a|b", "c")]), 2) != [Person(1, "a|b", "c")]
  {
    var p := Person(1, "a|b", "c");
    assert p.name[1] == '|';
    assert [p][..1] == [p];
    RoundTrip([p], 2);
  }
}
