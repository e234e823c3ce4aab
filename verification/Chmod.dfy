/** Symbolic permission clauses such as `ug+rw`, and the `drwxr-xr-x` form of a mode. */
module Chmod {

  /** A mode is the set of its bits, by position: | is union, & is intersection and & ~ is difference. */
  type Mode = set<nat>

  const USER: Mode := {8, 7, 6}
  const GROUP: Mode := {5, 4, 3}
  const OTHER: Mode := {2, 1, 0}
  const READ: Mode := {8, 5, 2}
  const WRITE: Mode := {7, 4, 1}
  const EXEC: Mode := {6, 3, 0}
  const ALL: Mode := USER + GROUP + OTHER

  // ---------- The clause ----------

  predicate IsClass(c: char) {
    c == 'u' || c == 'g' || c == 'o' || c == 'a'
  }

  /** How many class letters the clause starts with. */
  function ClassCount(s: string): (k: nat)
    ensures k <= |s|
    ensures forall i :: 0 <= i < k ==> IsClass(s[i])
    ensures k < |s| ==> !IsClass(s[k])
  {
    if s == [] || !IsClass(s[0]) then 0 else 1 + ClassCount(s[1..])
  }

  function Letters(s: string): set<char> {
    set c | c in s
  }

  function Part(on: bool, bits: Mode): Mode {
    if on then bits else {}
  }

  function WhoBits(letters: set<char>): Mode {
    Part('u' in letters || 'a' in letters, USER) + Part('g' in letters || 'a' in letters, GROUP)
    + Part('o' in letters || 'a' in letters, OTHER)
  }

  function PermBits(letters: set<char>): Mode {
    Part('r' in letters, READ) + Part('w' in letters, WRITE) + Part('x' in letters, EXEC)
  }

  /** The bits of the chosen classes; all of them when no class is named. */
  function Who(classes: set<char>): Mode {
    if WhoBits(classes) == {} then ALL else WhoBits(classes)
  }

  /** What a clause does: it depends on the letters before the operator, the operator, and those after it. */
  function Meaning(m: Mode, classes: set<char>, op: char, perms: set<char>): Mode {
    var who := Who(classes);
    var perm := PermBits(perms);
    match op
    case '=' => (m - who) + perm * who
    case '+' => m + perm * who
    case '-' => m - perm * who
    case _ => m
  }

  /** The operator of a clause; the terminating NUL when there is none. */
  function OpOf(s: string): char {
    if ClassCount(s) < |s| then s[ClassCount(s)] else '\0'
  }

  function PermsOf(s: string): string {
    if ClassCount(s) < |s| then s[ClassCount(s) + 1..] else ""
  }

  function Apply(m: Mode, s: string): Mode {
    Meaning(m, Letters(s[..ClassCount(s)]), OpOf(s), Letters(PermsOf(s)))
  }

  lemma WhoNext(letters: set<char>, c: char, who: Mode)
    requires IsClass(c) && who == WhoBits(letters)
    ensures WhoBits(letters + {c})
         == who + (match c case 'u' => USER case 'g' => GROUP case 'o' => OTHER case _ => ALL)
  {
  }

  lemma LettersNext(s: string, i: nat)
    requires i < |s|
    ensures Letters(s[..i + 1]) == Letters(s[..i]) + {s[i]}
  {
    assert s[..i + 1] == s[..i] + [s[i]];
  }

  /** symbolicAccess */
  method SymbolicAccess(mode: Mode, symbolic: string) returns (r: Mode)
    ensures r == Apply(mode, symbolic)
  {
    var who: Mode := {};
    var ptr := 0;
    while ptr < |symbolic| && IsClass(symbolic[ptr])
      invariant 0 <= ptr <= |symbolic|
      invariant forall i :: 0 <= i < ptr ==> IsClass(symbolic[i])
      invariant who == WhoBits(Letters(symbolic[..ptr]))
    {
      LettersNext(symbolic, ptr);
      WhoNext(Letters(symbolic[..ptr]), symbolic[ptr], who);
      match symbolic[ptr] {
        case 'u' => who := who + USER;
        case 'g' => who := who + GROUP;
        case 'o' => who := who + OTHER;
        case _ => who := who + ALL;
      }
      ptr := ptr + 1;
    }
    assert ptr == ClassCount(symbolic);
    if who == {} {
      who := ALL;
    }
    var op := if ptr < |symbolic| then symbolic[ptr] else '\0';
    if op != '+' && op != '-' && op != '=' {
      return mode;
    }
    var perm := Permissions(symbolic[ptr + 1..]);
    match op
    case '=' =>
      r := mode - who;
      r := r + perm * who;
    case '+' => r := mode + perm * who;
    case _ => r := mode - perm * who;
  }

  /** The loop over the permission letters; any other character is skipped. */
  method Permissions(s: string) returns (perm: Mode)
    ensures perm == PermBits(Letters(s))
  {
    perm := {};
    var ptr := 0;
    while ptr < |s|
      invariant 0 <= ptr <= |s|
      invariant perm == PermBits(Letters(s[..ptr]))
    {
      LettersNext(s, ptr);
      match s[ptr] {
        case 'r' => perm := perm + READ;
        case 'w' => perm := perm + WRITE;
        case 'x' => perm := perm + EXEC;
        case _ =>
      }
      ptr := ptr + 1;
    }
    assert s[..ptr] == s;
  }

  // ---------- Bit by bit ----------

  datatype Class = U | G | O
  datatype Perm = R | W | X

  /** The position of a permission bit. */
  function BitOf(c: Class, p: Perm): nat {
    (match c case U => 6 case G => 3 case O => 0) + (match p case R => 2 case W => 1 case X => 0)
  }

  predicate Has(m: Mode, c: Class, p: Perm) {
    BitOf(c, p) in m
  }

  /** A clause without class letters is about every class. */
  predicate Selected(letters: set<char>, c: Class) {
    || (match c
        case U => 'u' in letters
        case G => 'g' in letters
        case O => 'o' in letters)
    || 'a' in letters
    || ('u' !in letters && 'g' !in letters && 'o' !in letters)
  }

  predicate Named(letters: set<char>, p: Perm) {
    match p
    case R => 'r' in letters
    case W => 'w' in letters
    case X => 'x' in letters
  }

  /** Each permission bit of a selected class is set, added or removed as the clause says. */
  lemma MeaningBitByBit(m: Mode, classes: set<char>, op: char, perms: set<char>, c: Class, p: Perm)
    ensures Has(Meaning(m, classes, op, perms), c, p)
         == (if !Selected(classes, c) then Has(m, c, p)
             else match op
               case '=' => Named(perms, p)
               case '+' => Has(m, c, p) || Named(perms, p)
               case '-' => Has(m, c, p) && !Named(perms, p)
               case _ => Has(m, c, p))
  {
    assert Has(Who(classes), c, p) == Selected(classes, c);
    assert Has(PermBits(perms), c, p) == Named(perms, p);
  }

  /** No other bit of the mode changes. */
  lemma MeaningKeepsOthers(m: Mode, classes: set<char>, op: char, perms: set<char>)
    ensures Meaning(m, classes, op, perms) - ALL == m - ALL
  {
    assert Who(classes) <= ALL;
  }

  /** A second application of the same clause changes nothing. */
  lemma ApplyIdempotent(m: Mode, s: string)
    ensures Apply(Apply(m, s), s) == Apply(m, s)
  {
    var classes, op, perms := Letters(s[..ClassCount(s)]), OpOf(s), Letters(PermsOf(s));
    assert Meaning(Meaning(m, classes, op, perms), classes, op, perms) == Meaning(m, classes, op, perms);
  }

  /** Only the set of class letters, the operator and the set of permission letters matter. */
  lemma ApplyDependsOnSets(m: Mode, s: string, t: string)
    requires Letters(s[..ClassCount(s)]) == Letters(t[..ClassCount(t)])
    requires OpOf(s) == OpOf(t)
    requires forall c :: c in "rwx" ==> (c in PermsOf(s) <==> c in PermsOf(t))
    ensures Apply(m, s) == Apply(m, t)
  {
    var a, b := Letters(PermsOf(s)), Letters(PermsOf(t));
    assert "rwx"[0] in "rwx" && "rwx"[1] in "rwx" && "rwx"[2] in "rwx";
    assert PermBits(a) == PermBits(b);
  }

  // ---------- The printed form ----------

  predicate IsDir(m: Mode) {
    m * {15, 14, 13, 12} == {14}
  }

  function Triple(m: Mode, c: Class): (t: string)
    ensures |t| == 3
  {
    [if Has(m, c, R) then 'r' else '-', if Has(m, c, W) then 'w' else '-', if Has(m, c, X) then 'x' else '-']
  }

  /** Character `i` of the printed form. */
  function Glyph(m: Mode, i: nat): char {
    if i == 0 then (if IsDir(m) then 'd' else '-')
    else if i <= 9 && 9 - i in m then (if i % 3 == 1 then 'r' else if i % 3 == 2 then 'w' else 'x')
    else '-'
  }

  function Text(m: Mode): (t: string)
    ensures |t| == 10
  {
    seq(10, i requires 0 <= i < 10 => Glyph(m, i))
  }

  /** Each character by the bit it shows; a directory has bit 14 alone of the four type bits. */
  lemma TextByBits(m: Mode)
    ensures var t := Text(m);
            && t[0] == (if 14 in m && 15 !in m && 13 !in m && 12 !in m then 'd' else '-')
            && t[1] == (if 8 in m then 'r' else '-') && t[2] == (if 7 in m then 'w' else '-')
            && t[3] == (if 6 in m then 'x' else '-') && t[4] == (if 5 in m then 'r' else '-')
            && t[5] == (if 4 in m then 'w' else '-') && t[6] == (if 3 in m then 'x' else '-')
            && t[7] == (if 2 in m then 'r' else '-') && t[8] == (if 1 in m then 'w' else '-')
            && t[9] == (if 0 in m then 'x' else '-')
  {
    assert m * {15, 14, 13, 12} == {14} <==> 14 in m && 15 !in m && 13 !in m && 12 !in m by {
      var kind := m * {15, 14, 13, 12};
      assert 14 in kind <==> 14 in m;
      assert 15 in kind <==> 15 in m;
      assert 13 in kind <==> 13 in m;
      assert 12 in kind <==> 12 in m;
    }
  }

  /** Two modes print alike iff their nine permission bits agree and both are directories or neither is. */
  lemma PrintedAlike(m: Mode, n: Mode)
    ensures Text(m) == Text(n) <==> m * ALL == n * ALL && IsDir(m) == IsDir(n)
  {
    var t, u := Text(m), Text(n);
    if t == u {
      assert forall i :: 0 <= i < 10 ==> t[i] == Glyph(m, i) && u[i] == Glyph(n, i);
      forall b: nat | b <= 8 ensures b in m <==> b in n {
        assert t[9 - b] == u[9 - b];
      }
      assert t[0] == u[0];
    }
    if m * ALL == n * ALL && IsDir(m) == IsDir(n) {
      forall b: nat | b <= 8 ensures b in m <==> b in n {
        assert b in ALL;
        assert b in m * ALL <==> b in n * ALL;
      }
      assert forall i :: 0 <= i < 10 ==> Glyph(m, i) == Glyph(n, i);
    }
  }

  lemma TextParts(m: Mode)
    ensures Text(m)[1..4] == Triple(m, U) && Text(m)[4..7] == Triple(m, G) && Text(m)[7..10] == Triple(m, O)
  {
  }

  /** The first `n` characters are printed and the others are still dashes. */
  ghost predicate Printed(str: array<char>, mode: Mode, n: nat)
    reads str
  {
    && str.Length == 11 && str[10] == '\0'
    && forall j :: 0 <= j < 10 ==> str[j] == if j < n then Glyph(mode, j) else '-'
  }

  /** if(on) str[i] = c */
  method Mark(str: array<char>, i: nat, on: bool, c: char, ghost mode: Mode)
    requires i < 10 && Printed(str, mode, i) && Glyph(mode, i) == if on then c else '-'
    modifies str
    ensures Printed(str, mode, i + 1)
  {
    if on {
      str[i] := c;
    }
  }

  /** toString, on a buffer of eleven characters of which the last is the terminator. */
  method ToString(mode: Mode, str: array<char>)
    requires str.Length == 11
    modifies str
    ensures str[..10] == Text(mode) && str[10] == '\0'
  {
    forall i | 0 <= i < 11 {
      str[i] := if i < 10 then '-' else '\0';
    }
    Mark(str, 0, IsDir(mode), 'd', mode);
    Mark(str, 1, 8 in mode, 'r', mode);
    Mark(str, 2, 7 in mode, 'w', mode);
    Mark(str, 3, 6 in mode, 'x', mode);
    Mark(str, 4, 5 in mode, 'r', mode);
    Mark(str, 5, 4 in mode, 'w', mode);
    Mark(str, 6, 3 in mode, 'x', mode);
    Mark(str, 7, 2 in mode, 'r', mode);
    Mark(str, 8, 1 in mode, 'w', mode);
    Mark(str, 9, 0 in mode, 'x', mode);
  }

  function ClassLetter(c: Class): char {
    match c
    case U => 'u'
    case G => 'g'
    case O => 'o'
  }

  function Assign(c: Class, triple: string): string {
    [ClassLetter(c), '='] + triple
  }

  function ClassBits(c: Class): Mode {
    match c
    case U => USER
    case G => GROUP
    case O => OTHER
  }

  lemma AssignCopies(m: Mode, c: Class, source: Mode)
    ensures Apply(m, Assign(c, Triple(source, c))) == (m - ClassBits(c)) + source * ClassBits(c)
  {
    var t := Triple(source, c);
    var s := Assign(c, t);
    assert s[0] == ClassLetter(c) && s[1] == '=' && s[1..][0] == '=';
    assert ClassCount(s[1..]) == 0 && ClassCount(s) == 1;
    assert s[..1] == [ClassLetter(c)] && PermsOf(s) == s[2..] == t;
    assert Letters(s[..1]) == {ClassLetter(c)};
    TripleNames(source, c);
    AssignBits(m, c, source, Letters(t));
  }

  lemma TripleNames(m: Mode, c: Class)
    ensures forall p :: Named(Letters(Triple(m, c)), p) == Has(m, c, p)
  {
    var t := Triple(m, c);
    forall p ensures Named(Letters(t), p) == Has(m, c, p) {
      assert t[0] in t && t[1] in t && t[2] in t;
    }
  }

  lemma AssignBits(m: Mode, c: Class, source: Mode, letters: set<char>)
    requires forall p :: Named(letters, p) == Has(source, c, p)
    ensures Meaning(m, {ClassLetter(c)}, '=', letters) == (m - ClassBits(c)) + source * ClassBits(c)
  {
    assert Named(letters, R) == Has(source, c, R);
    assert Named(letters, W) == Has(source, c, W);
    assert Named(letters, X) == Has(source, c, X);
    assert Who({ClassLetter(c)}) == ClassBits(c);
    assert PermBits(letters) * ClassBits(c) == source * ClassBits(c);
  }

  lemma ThreeParts(m: Mode, start: Mode, u: Mode, g: Mode, o: Mode)
    requires u !! g !! o
    ensures var r := (((((start - u) + m * u) - g) + m * g) - o) + m * o;
            r * (u + g + o) == m * (u + g + o) && r - (u + g + o) == start - (u + g + o)
  {
  }

  /** Feeding the three printed triples of `m` back as "u=", "g=" and "o=" clauses, on any mode, gives the nine
      permission bits of `m` and leaves the others. */
  lemma PrintedModeRestores(m: Mode, start: Mode)
    ensures var t := Text(m);
            var r := Apply(Apply(Apply(start, Assign(U, t[1..4])), Assign(G, t[4..7])), Assign(O, t[7..10]));
            r * ALL == m * ALL && r - ALL == start - ALL
  {
    TextParts(m);
    AssignThree(m, start);
  }

  lemma AssignThree(m: Mode, start: Mode)
    ensures var m1 := Apply(start, Assign(U, Triple(m, U)));
            var m2 := Apply(m1, Assign(G, Triple(m, G)));
            var r := Apply(m2, Assign(O, Triple(m, O)));
            r * ALL == m * ALL && r - ALL == start - ALL
  {
    hide Apply;
    hide Assign;
    hide Triple;
    AssignCopies(start, U, m);
    var m1 := (start - USER) + m * USER;
    AssignCopies(m1, G, m);
    var m2 := (m1 - GROUP) + m * GROUP;
    AssignCopies(m2, O, m);
    ThreeParts(m, start, USER, GROUP, OTHER);
  }
}
