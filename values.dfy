/** The document model: parsed JSON values, documents, queries, and the few
    JavaScript object operations that the collection engine relies on
    (property lookup, property assignment, the `merge` package, enumeration
    with for-in, and the `==` / `===` comparisons). */
module Values {

  datatype Option<+T> = None | Some(value: T)

  /** A parsed JSON value. An object keeps its properties as ordered pairs, in
      the order in which for-in enumerates them. Numbers are integers. */
  datatype Value =
    | Null
    | Bool(b: bool)
    | Int(i: int)
    | Str(s: string)
    | Arr(elems: seq<Value>)
    | Obj(fields: seq<(string, Value)>)

  /** A stored document is a JSON object. */
  type Doc = v: Value | v.Obj? witness Obj([])

  /** A query object: field names with the values they are compared with,
      in for-in order. */
  type Query = seq<(string, Value)>

  /** `typeof v != "object"`: booleans, numbers and strings. `null`, arrays
      and objects all have typeof "object". */
  predicate IsLeaf(v: Value) {
    v.Bool? || v.Int? || v.Str?
  }

  /** `a === b` of JavaScript on two values parsed from separate JSON texts,
      or on a query value and a parsed one: `null` and scalars of the same
      kind compare by value, and an array or object, being a distinct
      reference, equals nothing. */
  predicate Same(a: Value, b: Value) {
    (a.Null? || IsLeaf(a)) && a == b
  }

  /** `a == b` of JavaScript, the IsLooselyEqual algorithm of ECMA-262
      (section 7.2.14), on two values parsed from separate JSON texts or on
      a query value and a parsed one. Values of one type compare strictly
      (two arrays or objects are distinct references); `null` equals nothing
      else; a number and a string compare as numbers; a boolean is replaced
      by 1 or 0, and an array or object by its string form, and the values
      are compared again. */
  predicate Loose(a: Value, b: Value)
    decreases Rank(a) + Rank(b)
  {
    if SameType(a, b) then Same(a, b)
    else if a.Null? || b.Null? then false
    else if a.Int? && b.Str? then StringNumber(b.s) == Some(a.i)
    else if a.Str? && b.Int? then StringNumber(a.s) == Some(b.i)
    else if a.Bool? then Loose(Int(if a.b then 1 else 0), b)
    else if b.Bool? then Loose(a, Int(if b.b then 1 else 0))
    else if IsComposite(b) then Loose(a, Str(Text(b)))
    else Loose(Str(Text(a)), b)
  }

  /** How many conversions IsLooselyEqual may still apply to a value. */
  function Rank(v: Value): nat {
    if v.Bool? then 1 else if IsComposite(v) then 2 else 0
  }

  /** Type(a) is Type(b): arrays and objects are both of type Object. */
  predicate SameType(a: Value, b: Value) {
    || (a.Null? && b.Null?)
    || (a.Bool? && b.Bool?)
    || (a.Int? && b.Int?)
    || (a.Str? && b.Str?)
    || (IsComposite(a) && IsComposite(b))
  }

  predicate IsComposite(v: Value) {
    v.Arr? || v.Obj?
  }

  /** ToString: what `String(v)` yields, which is also what an array joins
      for its elements (where `null` gives the empty string). */
  function Text(v: Value): string
    decreases v, if v.Arr? then |v.elems| + 1 else 0
  {
    match v
    case Null => "null"
    case Bool(b) => if b then "true" else "false"
    case Int(i) => NumberText(i)
    case Str(s) => s
    case Arr(elems) => JoinFrom(v, 0)
    case Obj(_) => "[object Object]"
  }

  /** The elements of array `v` from index `i` on, joined with commas. */
  function JoinFrom(v: Value, i: nat): string
    requires v.Arr?
    decreases v, |v.elems| - i
  {
    if i >= |v.elems| then ""
    else
      (if i > 0 then "," else "")
      + (if v.elems[i].Null? then "" else Text(v.elems[i]))
      + JoinFrom(v, i + 1)
  }

  /** Number::toString for an integer: its decimal spelling, with a leading
      minus sign when negative. */
  function NumberText(n: int): string {
    if n < 0 then "-" + IndexKey(-n) else IndexKey(n)
  }

  /** StrWhiteSpaceChar: white space and line terminators. */
  predicate IsSpace(c: char) {
    var n := c as int;
    n == 0x09 || n == 0x0A || n == 0x0B || n == 0x0C || n == 0x0D || n == 0x20
    || n == 0xA0 || n == 0x1680 || (0x2000 <= n <= 0x200A) || n == 0x2028
    || n == 0x2029 || n == 0x202F || n == 0x205F || n == 0x3000 || n == 0xFEFF
  }

  function TrimStart(s: string): string {
    if s != [] && IsSpace(s[0]) then TrimStart(s[1..]) else s
  }

  function TrimEnd(s: string): string {
    if s != [] && IsSpace(s[|s| - 1]) then TrimEnd(s[..|s| - 1]) else s
  }

  /** The value of one digit in base `base` (at most 16), if `c` is one. */
  function DigitValue(c: char, base: nat): Option<nat> {
    var d :=
      if '0' <= c <= '9' then c as int - '0' as int
      else if 'a' <= c <= 'f' then c as int - 'a' as int + 10
      else if 'A' <= c <= 'F' then c as int - 'A' as int + 10
      else 16;
    if d < base then Some(d) else None
  }

  /** The value of a non-empty string of digits in base `base`. */
  function DigitsValue(s: string, base: nat): Option<nat> {
    if s == [] then None
    else
      var last := DigitValue(s[|s| - 1], base);
      if last.None? then None
      else if |s| == 1 then last
      else
        var init := DigitsValue(s[..|s| - 1], base);
        if init.None? then None else Some(init.value * base + last.value)
  }

  /** Like `DigitsValue` in base 10, but the empty string is 0. */
  function OptionalDigits(s: string): Option<nat> {
    if s == [] then Some(0) else DigitsValue(s, 10)
  }

  function Pow10(n: nat): (r: nat)
    ensures r > 0
  {
    if n == 0 then 1 else 10 * Pow10(n - 1)
  }

  /** The index of the first character of `s` that is in `cs`, or `|s|`. */
  function FirstOf(s: string, cs: set<char>): (r: nat)
    ensures r <= |s|
  {
    if s == [] || s[0] in cs then 0 else 1 + FirstOf(s[1..], cs)
  }

  /** An ExponentPart after its `e`: an optional sign and digits. */
  function ExponentValue(s: string): Option<int> {
    if s != [] && (s[0] == '+' || s[0] == '-') then
      var d := DigitsValue(s[1..], 10);
      if d.None? then None
      else
        var n: int := if s[0] == '-' then -(d.value as int) else d.value as int;
        Some(n)
    else
      Widen(DigitsValue(s, 10))
  }

  /** StrUnsignedDecimalLiteral other than `Infinity`: digits, an optional
      fraction and an optional exponent, when the number it denotes is an
      integer. */
  function UnsignedDecimal(s: string): Option<nat> {
    var e := FirstOf(s, {'e', 'E'});
    var mantissa := s[..e];
    var exponent := if e < |s| then ExponentValue(s[e + 1..]) else Some(0);
    var dot := FirstOf(mantissa, {'.'});
    var whole := mantissa[..dot];
    var fraction := if dot < |mantissa| then mantissa[dot + 1..] else [];
    var m := OptionalDigits(whole + fraction);
    if exponent.None? || m.None? || (whole == [] && fraction == []) then None
    else Scaled(m.value, exponent.value - |fraction|)
  }

  /** `m` times ten to the power `scale`, when that is an integer. */
  function Scaled(m: nat, scale: int): Option<nat> {
    if scale >= 0 then Some(m * Pow10(scale))
    else if m % Pow10(-scale) == 0 then Some(m / Pow10(-scale))
    else None
  }

  /** StringToNumber, as an integer: surrounding white space is ignored and
      an empty string is 0. */
  function StringNumber(s: string): Option<int> {
    var t := TrimEnd(TrimStart(s));
    if t == [] then Some(0) else NumericLiteral(t)
  }

  /** `0x`, `0o` and `0b` introduce hexadecimal, octal and binary digits;
      anything else is a signed decimal literal. */
  function NumericLiteral(t: string): Option<int> {
    var base := Radix(t);
    if base > 0 then Widen(DigitsValue(t[2..], base)) else SignedDecimal(t)
  }

  /** The base a `0x`, `0o` or `0b` prefix of `t` selects, or 0. */
  function Radix(t: string): (r: nat)
    ensures r > 0 ==> |t| >= 2
  {
    if |t| < 2 || t[0] != '0' then 0
    else if t[1] == 'x' || t[1] == 'X' then 16
    else if t[1] == 'o' || t[1] == 'O' then 8
    else if t[1] == 'b' || t[1] == 'B' then 2
    else 0
  }

  /** StrDecimalLiteral: an optional sign before an unsigned literal. */
  function SignedDecimal(t: string): Option<int> {
    if t != [] && t[0] == '+' then Widen(UnsignedDecimal(t[1..]))
    else if t != [] && t[0] == '-' then
      var u := UnsignedDecimal(t[1..]);
      if u.None? then None
      else
        var n: int := -(u.value as int);
        Some(n)
    else Widen(UnsignedDecimal(t))
  }

  function Widen(n: Option<nat>): Option<int> {
    if n.None? then None else Some(n.value)
  }

  /** Loose equality is symmetric. */
  lemma {:induction false} LooseSymmetric(a: Value, b: Value)
    ensures Loose(a, b) == Loose(b, a)
    decreases Rank(a) + Rank(b)
  {
    if !SameType(a, b) && !a.Null? && !b.Null? && !(a.Int? && b.Str?) && !(a.Str? && b.Int?) {
      if a.Bool? {
        LooseSymmetric(Int(if a.b then 1 else 0), b);
      } else if b.Bool? {
        LooseSymmetric(a, Int(if b.b then 1 else 0));
      } else if IsComposite(b) {
        LooseSymmetric(a, Str(Text(b)));
      } else {
        LooseSymmetric(Str(Text(a)), b);
      }
    }
  }

  /** Loose equality holds wherever strict equality does; between values of
      one type the two coincide; an array or object is strictly equal to
      nothing. */
  lemma LooseExtendsSame(a: Value, b: Value)
    ensures Same(a, b) ==> Loose(a, b)
    ensures SameType(a, b) ==> (Loose(a, b) <==> Same(a, b))
    ensures IsComposite(a) ==> !Same(a, b)
  {
  }

  /** Where the two differ: a string or a boolean against a number, loosely
      but not strictly equal. */
  lemma LooseNotStrict()
    ensures Loose(Str("1"), Int(1)) && !Same(Str("1"), Int(1))
    ensures Loose(Bool(true), Int(1)) && !Same(Bool(true), Int(1))
  {
    assert Loose(Str("1"), Int(1));
  }

  /** An array or object against a scalar is compared through its string
      form: `[1] == 1`, `[] == 0` and `{} == "[object Object]"` hold,
      though none of them holds strictly. */
  lemma CompositeLooseNotStrict()
    ensures Loose(Arr([Int(1)]), Int(1)) && !Same(Arr([Int(1)]), Int(1))
    ensures Loose(Arr([]), Int(0)) && !Same(Arr([]), Int(0))
    ensures Loose(Obj([]), Str("[object Object]")) && !Same(Obj([]), Str("[object Object]"))
  {
    assert Loose(Arr([Int(1)]), Int(1)) by {
      assert Text(Arr([Int(1)])) == NumberText(1) by {
        assert JoinFrom(Arr([Int(1)]), 1) == "";
      }
      NumberRoundTrip(1);
    }
    assert Loose(Arr([]), Int(0)) by {
      assert Text(Arr([])) == "";
      assert StringNumber("") == Some(0);
    }
  }

  /** Surrounding white space is ignored: `" 12\n" == 12`. */
  lemma NumberWithSpaces()
    ensures StringNumber(" 12\n") == Some(12)
  {
    assert " 12\n"[1..] == "12\n";
    assert TrimStart(" 12\n") == "12\n";
    assert "12\n"[..2] == "12";
    assert TrimEnd("12\n") == "12";
    assert "12"[..1] == "1";
    assert DigitsValue("12", 10) == Some(12);
    assert FirstOf("12", {'e', 'E'}) == 2 by {
      assert "12"[1..] == "2";
      assert "2"[1..] == "";
    }
    assert FirstOf("12", {'.'}) == 2 by {
      assert "12"[1..] == "2";
      assert "2"[1..] == "";
    }
    assert "12"[..2] == "12";
    assert "12" + [] == "12";
    assert UnsignedDecimal("12") == Some(12);
  }

  /** A fraction with an exponent can denote an integer: `"1.5e1" == 15`. */
  lemma NumberWithExponent()
    ensures StringNumber("1.5e1") == Some(15)
  {
    assert TrimStart("1.5e1") == "1.5e1";
    assert TrimEnd("1.5e1") == "1.5e1";
    assert FirstOf("1.5e1", {'e', 'E'}) == 3 by {
      assert "1.5e1"[1..] == ".5e1";
      assert ".5e1"[1..] == "5e1";
      assert "5e1"[1..] == "e1";
    }
    assert "1.5e1"[..3] == "1.5";
    assert "1.5e1"[4..] == "1";
    assert FirstOf("1.5", {'.'}) == 1 by {
      assert "1.5"[1..] == ".5";
    }
    assert "1.5"[..1] == "1" && "1.5"[2..] == "5";
    assert "1" + "5" == "15";
    assert "15"[..1] == "1";
    assert DigitsValue("15", 10) == Some(15);
  }

  /** A sign before a hexadecimal literal makes it `NaN`. */
  lemma SignedHexIsNaN()
    ensures StringNumber("-0x1").None?
  {
    assert TrimStart("-0x1") == "-0x1";
    assert TrimEnd("-0x1") == "-0x1";
    assert "-0x1"[1..] == "0x1";
    assert FirstOf("0x1", {'e', 'E'}) == 3 by {
      assert "0x1"[1..] == "x1";
      assert "x1"[1..] == "1";
      assert "1"[1..] == "";
    }
    assert "0x1"[..3] == "0x1";
    assert FirstOf("0x1", {'.'}) == 3 by {
      assert "0x1"[1..] == "x1";
      assert "x1"[1..] == "1";
      assert "1"[1..] == "";
    }
    assert "0x1" + "" == "0x1";
    assert "0x1"[..2] == "0x";
    assert DigitsValue("0x", 10).None?;
  }

  /** The decimal spelling of a number consists of digits only. */
  lemma {:induction false} IndexKeyDigits(n: nat)
    ensures forall i :: 0 <= i < |IndexKey(n)| ==> '0' <= IndexKey(n)[i] <= '9'
    decreases n
  {
    if n >= 10 {
      IndexKeyDigits(n / 10);
    }
  }

  /** Reading the decimal spelling of `n` back gives `n`. */
  lemma {:induction false} IndexKeyValue(n: nat)
    ensures DigitsValue(IndexKey(n), 10) == Some(n)
    decreases n
  {
    var s := IndexKey(n);
    if n >= 10 {
      IndexKeyValue(n / 10);
      assert s[..|s| - 1] == IndexKey(n / 10);
      assert s[|s| - 1] == DigitChar(n % 10);
    }
  }

  lemma {:induction false} FirstOfAbsent(s: string, cs: set<char>)
    requires forall i :: 0 <= i < |s| ==> s[i] !in cs
    ensures FirstOf(s, cs) == |s|
  {
    if s != [] {
      FirstOfAbsent(s[1..], cs);
    }
  }

  /** A non-empty run of decimal digits denotes the number they spell. */
  lemma PlainDecimal(s: string)
    requires s != [] && forall i :: 0 <= i < |s| ==> '0' <= s[i] <= '9'
    ensures UnsignedDecimal(s) == Widen(DigitsValue(s, 10))
  {
    FirstOfAbsent(s, {'e', 'E'});
    assert s[..|s|] == s;
    FirstOfAbsent(s, {'.'});
    assert s + [] == s;
  }

  /** Text that neither starts nor ends with white space, and carries no
      radix prefix, is read as a signed decimal literal. */
  lemma DecimalText(t: string)
    requires t != [] && !IsSpace(t[0]) && !IsSpace(t[|t| - 1]) && Radix(t) == 0
    ensures StringNumber(t) == SignedDecimal(t)
  {
    assert TrimStart(t) == t;
    assert TrimEnd(t) == t;
  }

  /** `Number(String(n)) == n` for every integer `n`, so an integer and its
      decimal spelling are loosely equal. */
  lemma NumberRoundTrip(n: int)
    ensures StringNumber(NumberText(n)) == Some(n)
    ensures Loose(Int(n), Str(NumberText(n)))
  {
    var m: nat := if n < 0 then -n else n;
    var k := IndexKey(m);
    IndexKeyDigits(m);
    IndexKeyValue(m);
    if n < 0 {
      PlainDecimal(k);
      NegativeDigits(k, m);
    } else {
      PlainDigits(k);
    }
  }

  /** A non-empty run of decimal digits, as text, denotes the number they
      spell. */
  lemma PlainDigits(k: string)
    requires k != [] && forall i :: 0 <= i < |k| ==> '0' <= k[i] <= '9'
    ensures StringNumber(k) == Widen(DigitsValue(k, 10))
  {
    assert Radix(k) == 0 by {
      assert |k| >= 2 ==> '0' <= k[1] <= '9';
    }
    DecimalText(k);
    PlainDecimal(k);
    assert SignedDecimal(k) == Widen(UnsignedDecimal(k));
  }

  /** So does a minus sign before one, as the negated number. */
  lemma NegativeDigits(k: string, v: nat)
    requires k != [] && forall i :: 0 <= i < |k| ==> '0' <= k[i] <= '9'
    requires UnsignedDecimal(k) == Some(v)
    ensures StringNumber("-" + k) == Some(-(v as int))
  {
    var t := "-" + k;
    assert t[0] == '-' && t[1..] == k && t[|t| - 1] == k[|k| - 1];
    assert Radix(t) == 0;
    NegativeSign(t, v);
    DecimalText(t);
  }

  lemma NegativeSign(t: string, v: nat)
    requires t != [] && t[0] == '-' && UnsignedDecimal(t[1..]) == Some(v)
    ensures SignedDecimal(t) == Some(-(v as int))
  {
  }

  /** `p in o` followed by `o[p]`: the value of the first property named
      `key`, if any. */
  function Lookup(fields: seq<(string, Value)>, key: string): Option<Value> {
    if fields == [] then None
    else if fields[0].0 == key then Some(fields[0].1)
    else Lookup(fields[1..], key)
  }

  /** A lookup fails exactly when no property carries the key. */
  lemma {:induction false} LookupNone(fields: seq<(string, Value)>, key: string)
    ensures Lookup(fields, key).None? <==> forall i :: 0 <= i < |fields| ==> fields[i].0 != key
  {
    if fields != [] && fields[0].0 != key {
      LookupNone(fields[1..], key);
      assert forall i :: 0 < i < |fields| ==> fields[i] == fields[1..][i - 1];
    }
  }

  function Member(d: Doc, key: string): Option<Value> {
    Lookup(d.fields, key)
  }

  /** Property assignment `o[key] = v`: an existing property keeps its
      position and takes the new value; a new property is appended. */
  function Set(fields: seq<(string, Value)>, key: string, v: Value): (r: seq<(string, Value)>)
    ensures Lookup(r, key) == Some(v)
    ensures forall k :: k != key ==> Lookup(r, k) == Lookup(fields, k)
    ensures |r| == |fields| || |r| == |fields| + 1
  {
    if fields == [] then [(key, v)]
    else if fields[0].0 == key then [(key, v)] + fields[1..]
    else [fields[0]] + Set(fields[1..], key, v)
  }

  function MergeFields(fields: seq<(string, Value)>, from: seq<(string, Value)>): seq<(string, Value)>
    decreases from
  {
    if from == [] then fields
    else MergeFields(Set(fields, from[0].0, from[0].1), from[1..])
  }

  /** `merge(c, data)` of the `merge` package: every property of `data` is
      assigned onto `c`, in order. */
  function Merge(c: Doc, data: Doc): Doc {
    Obj(MergeFields(c.fields, data.fields))
  }

  /** `{...d, _id: id}`, and `d._id = id`. */
  function WithId(d: Doc, id: string): Doc {
    Obj(Set(d.fields, "_id", Str(id)))
  }

  /** The key under which the deep searcher records a root it has reported. */
  function IdKey(d: Doc): Option<Value> {
    Member(d, "_id")
  }

  predicate DistinctKeys(fields: seq<(string, Value)>) {
    forall i, j :: 0 <= i < j < |fields| ==> fields[i].0 != fields[j].0
  }

  lemma {:induction false} LookupAfterMerge(fields: seq<(string, Value)>, from: seq<(string, Value)>, k: string)
    requires DistinctKeys(from)
    ensures Lookup(MergeFields(fields, from), k)
         == if Lookup(from, k).Some? then Lookup(from, k) else Lookup(fields, k)
    decreases from
  {
    if from != [] {
      assert DistinctKeys(from[1..]) by {
        forall i, j | 0 <= i < j < |from[1..]| ensures from[1..][i].0 != from[1..][j].0 {
          assert from[1..][i] == from[i + 1] && from[1..][j] == from[j + 1];
        }
      }
      LookupAfterMerge(Set(fields, from[0].0, from[0].1), from[1..], k);
      if k == from[0].0 {
        assert Lookup(from[1..], k).None? by {
          forall i | 0 <= i < |from[1..]| ensures from[1..][i].0 != k {
            assert from[1..][i] == from[i + 1];
          }
          LookupNone(from[1..], k);
        }
      }
    }
  }

  /** Merging overwrites exactly the fields that `data` carries. */
  lemma MergeMember(c: Doc, data: Doc, k: string)
    requires DistinctKeys(data.fields)
    ensures Member(Merge(c, data), k) == if Member(data, k).Some? then Member(data, k) else Member(c, k)
  {
    LookupAfterMerge(c.fields, data.fields, k);
  }

  /** An update whose data carries no `_id` keeps the document's `_id`. */
  lemma MergeKeepsId(c: Doc, data: Doc)
    requires DistinctKeys(data.fields) && Member(data, "_id").None?
    ensures IdKey(Merge(c, data)) == IdKey(c)
  {
    MergeMember(c, data, "_id");
  }

  /** `merge` is not recursive: a nested object in `data` replaces the one
      in the document instead of being merged into it. */
  lemma MergeReplacesNested()
    ensures Merge(Obj([("a", Obj([("x", Int(1))]))]), Obj([("a", Obj([("y", Int(2))]))]))
         == Obj([("a", Obj([("y", Int(2))]))])
  {
  }

  lemma {:induction false} SetAgain(fields: seq<(string, Value)>, key: string, v: Value)
    ensures Set(Set(fields, key, v), key, v) == Set(fields, key, v)
  {
    if fields != [] && fields[0].0 != key {
      SetAgain(fields[1..], key, v);
    }
  }

  /** Assigning a property of `data` that a merged object already holds
      changes nothing. */
  lemma {:induction false} SetMerged(fields: seq<(string, Value)>, from: seq<(string, Value)>, i: nat)
    requires DistinctKeys(from) && i < |from|
    ensures Set(MergeFields(fields, from), from[i].0, from[i].1) == MergeFields(fields, from)
    decreases from
  {
    assert DistinctKeys(from[1..]) by {
      forall a, b | 0 <= a < b < |from[1..]| ensures from[1..][a].0 != from[1..][b].0 {
        assert from[1..][a] == from[a + 1] && from[1..][b] == from[b + 1];
      }
    }
    var f1 := Set(fields, from[0].0, from[0].1);
    if i == 0 {
      NoKeySetCommutes(f1, from[1..], from[0].0, from[0].1);
      SetAgain(fields, from[0].0, from[0].1);
    } else {
      assert from[1..][i - 1] == from[i];
      SetMerged(f1, from[1..], i - 1);
    }
  }

  /** A property assignment commutes with merging fields that do not name it. */
  lemma {:induction false} NoKeySetCommutes(fields: seq<(string, Value)>, from: seq<(string, Value)>, key: string, v: Value)
    requires forall j :: 0 <= j < |from| ==> from[j].0 != key
    requires Lookup(fields, key) == Some(v)
    ensures Set(MergeFields(fields, from), key, v) == MergeFields(fields, from)
    decreases from
  {
    if from == [] {
      SetPresent(fields, key, v);
    } else {
      var f1 := Set(fields, from[0].0, from[0].1);
      assert Lookup(f1, key) == Some(v);
      NoKeySetCommutes(f1, from[1..], key, v);
    }
  }

  lemma {:induction false} SetPresent(fields: seq<(string, Value)>, key: string, v: Value)
    requires Lookup(fields, key) == Some(v)
    ensures Set(fields, key, v) == fields
  {
    if fields[0].0 != key {
      SetPresent(fields[1..], key, v);
    }
  }

  lemma {:induction false} MergeFieldsAgain(fields: seq<(string, Value)>, from: seq<(string, Value)>, rest: seq<(string, Value)>)
    requires DistinctKeys(from)
    requires forall j :: 0 <= j < |rest| ==> rest[j] in from
    ensures MergeFields(MergeFields(fields, from), rest) == MergeFields(fields, from)
  {
    if rest != [] {
      var i :| 0 <= i < |from| && rest[0] == from[i];
      SetMerged(fields, from, i);
      forall j | 0 <= j < |rest[1..]| ensures rest[1..][j] in from {
        assert rest[1..][j] == rest[j + 1];
      }
      MergeFieldsAgain(fields, from, rest[1..]);
    }
  }

  /** Merging the same data twice is merging it once, so re-merging a
      document once per matching query key has the effect of one merge. */
  lemma MergeIdempotent(c: Doc, data: Doc)
    requires DistinctKeys(data.fields)
    ensures Merge(Merge(c, data), data) == Merge(c, data)
  {
    MergeFieldsAgain(c.fields, data.fields, data.fields);
  }

  function DigitChar(d: nat): char
    requires d < 10
  {
    "0123456789"[d]
  }

  /** The decimal spelling of an array index, as for-in produces it. */
  function IndexKey(n: nat): (r: string)
    ensures |r| > 0
    decreases n
  {
    if n < 10 then [DigitChar(n)] else IndexKey(n / 10) + [DigitChar(n % 10)]
  }

  /** Distinct array indices have distinct keys, so a query key names at
      most one element of an array. */
  lemma {:induction false} IndexKeyInjective(a: nat, b: nat)
    ensures IndexKey(a) == IndexKey(b) ==> a == b
    decreases a
  {
    if IndexKey(a) == IndexKey(b) {
      var s := IndexKey(a);
      if a < 10 && b < 10 {
        assert DigitChar(a) == s[0] == DigitChar(b);
      } else if a >= 10 && b >= 10 {
        assert s[..|s| - 1] == IndexKey(a / 10) == IndexKey(b / 10);
        assert DigitChar(a % 10) == s[|s| - 1] == DigitChar(b % 10);
        IndexKeyInjective(a / 10, b / 10);
      }
    }
  }

  /** What for-in over a value yields together with the value at each key:
      an object's properties, an array's decimal indices, nothing otherwise. */
  function Entries(v: Value): (r: seq<(string, Value)>)
    ensures forall i :: 0 <= i < |r| ==> r[i].1 < v
  {
    match v
    case Obj(fields) => fields
    case Arr(elems) => seq(|elems|, i requires 0 <= i < |elems| => (IndexKey(i), elems[i]))
    case _ => []
  }

  /** The values among `es` that are not leaves, in order. */
  function NonLeaves(es: seq<(string, Value)>): seq<Value> {
    if es == [] then []
    else NonLeaves(es[..|es| - 1]) + (if IsLeaf(es[|es| - 1].1) then [] else [es[|es| - 1].1])
  }

  /** Exactly the non-leaf values of `es` are kept. */
  lemma {:induction false} NonLeavesFrom(es: seq<(string, Value)>)
    ensures forall x :: x in NonLeaves(es) ==> !IsLeaf(x) && exists i :: 0 <= i < |es| && es[i].1 == x
    ensures forall i :: 0 <= i < |es| && !IsLeaf(es[i].1) ==> es[i].1 in NonLeaves(es)
  {
    if es != [] {
      var init := es[..|es| - 1];
      NonLeavesFrom(init);
      assert forall i :: 0 <= i < |init| ==> init[i] == es[i];
    }
  }

  /** The nested values that the searcher pushes for `v`, in push order. */
  function Children(v: Value): (r: seq<Value>)
    ensures forall i :: 0 <= i < |r| ==> r[i] < v && !IsLeaf(r[i])
  {
    var r := NonLeaves(Entries(v));
    NonLeavesFrom(Entries(v));
    assert forall i :: 0 <= i < |r| ==> r[i] in r;
    r
  }
}
