/** Search filter expressions: quoting of text values, and the choice of operator from a lookup. */
module FilterPrinter {
  import opened Wrappers

  // ----- quoting -----

  /** `str.replace` of one character by a text. */
  function Replace(s: string, c: char, sub: string): string {
    if s == [] then [] else (if s[0] == c then sub else [s[0]]) + Replace(s[1..], c, sub)
  }

  /** The two chained replacements: first the backslashes, then the quotes. */
  function Escape(s: string, quote: char): string {
    Replace(Replace(s, '\\', ['\\', '\\']), quote, ['\\', quote])
  }

  /** Escaping in one pass over the text. */
  function EscapeOnce(s: string, quote: char): string {
    if s == [] then []
    else (if s[0] == '\\' || s[0] == quote then ['\\', s[0]] else [s[0]]) + EscapeOnce(s[1..], quote)
  }

  /**
   * A reader of a quoted literal, placed after the opening quote: a backslash takes the next character
   * literally, the quote ends the literal. Gives the value and the text after the closing quote.
   */
  function ReadQuoted(s: string, quote: char): Option<(string, string)> {
    if s == [] then None
    else if s[0] == quote then Some(([], s[1..]))
    else if s[0] == '\\' then
      if |s| == 1 then None else Prepend(s[1], ReadQuoted(s[2..], quote))
    else Prepend(s[0], ReadQuoted(s[1..], quote))
  }

  function Prepend(c: char, r: Option<(string, string)>): Option<(string, string)> {
    if r.None? then None else Some(([c] + r.value.0, r.value.1))
  }

  lemma {:induction false} ReplaceConcat(a: string, b: string, c: char, sub: string)
    ensures Replace(a + b, c, sub) == Replace(a, c, sub) + Replace(b, c, sub)
  {
    if a == [] {
      assert a + b == b;
    } else {
      assert (a + b)[1..] == a[1..] + b;
      ReplaceConcat(a[1..], b, c, sub);
    }
  }

  /** The chained replacements do not disturb each other: together they are one pass. */
  lemma {:induction false} EscapeIsOnePass(s: string, quote: char)
    requires quote != '\\'
    ensures Escape(s, quote) == EscapeOnce(s, quote)
  {
    if s != [] {
      var first := if s[0] == '\\' then ['\\', '\\'] else [s[0]];
      var rest := Replace(s[1..], '\\', ['\\', '\\']);
      ReplaceConcat(first, rest, quote, ['\\', quote]);
      EscapeIsOnePass(s[1..], quote);
      assert first[1..] == if s[0] == '\\' then ['\\'] else [];
      assert Replace([], quote, ['\\', quote]) == [];
      assert Replace(['\\'], quote, ['\\', quote]) == ['\\'];
      assert Replace(first, quote, ['\\', quote])
          == if s[0] == '\\' || s[0] == quote then ['\\', s[0]] else [s[0]];
    }
  }

  /** In the other order they would: a quote would come out with its own backslash escaped. */
  lemma SwappedReplacementsDiffer(quote: char)
    requires quote != '\\'
    ensures Replace(Replace([quote], quote, ['\\', quote]), '\\', ['\\', '\\']) == ['\\', '\\', quote]
    ensures ReadQuoted(['\\', '\\', quote], quote) == Some((['\\'], []))
  {
    assert [quote][1..] == [];
    var r := ['\\', quote];
    assert Replace([quote], quote, r) == r + [] == r;
    assert r[1..] == [quote] && Replace([quote], '\\', ['\\', '\\']) == [quote] + [] == [quote];
    var t := ['\\', '\\', quote];
    assert t[2..] == [quote] && ReadQuoted([quote], quote) == Some(([], []));
    assert ['\\'] + [] == ['\\'];
  }

  /** Main result: reading a printed literal gives back the value, and stops exactly at the printed closing quote. */
  lemma {:induction false} ReadBackExactly(s: string, quote: char, rest: string)
    requires quote != '\\'
    ensures ReadQuoted(EscapeOnce(s, quote) + [quote] + rest, quote) == Some((s, rest))
  {
    if s == [] {
      assert EscapeOnce(s, quote) + [quote] + rest == [quote] + rest;
    } else {
      var tail := EscapeOnce(s[1..], quote) + [quote] + rest;
      ReadBackExactly(s[1..], quote, rest);
      assert s == [s[0]] + s[1..];
      if s[0] == '\\' || s[0] == quote {
        assert EscapeOnce(s, quote) + [quote] + rest == ['\\', s[0]] + tail;
        ReadEscaped(s[0], tail, quote);
      } else {
        assert EscapeOnce(s, quote) + [quote] + rest == [s[0]] + tail;
        ReadPlain(s[0], tail, quote);
      }
    }
  }

  lemma ReadEscaped(c: char, tail: string, quote: char)
    requires quote != '\\'
    ensures ReadQuoted(['\\', c] + tail, quote) == Prepend(c, ReadQuoted(tail, quote))
  {
    assert (['\\', c] + tail)[2..] == tail;
  }

  lemma ReadPlain(c: char, tail: string, quote: char)
    requires c != '\\' && c != quote
    ensures ReadQuoted([c] + tail, quote) == Prepend(c, ReadQuoted(tail, quote))
  {
    assert ([c] + tail)[1..] == tail;
  }

  // ----- filters -----

  /** The values a filter can carry; `printed` is the text the language prints for them. */
  datatype Value =
    | Text(text: string)
    | Nothing
    | Number(printed: string)
    | Flag(flag: bool)
    | Items(items: seq<string>, printed: string)
    | Span(start: string, stop: string)
    | Mapping(empty: bool, printed: string)

  function Printed(v: Value): string {
    match v
    case Text(s) => s
    case Nothing => "None"
    case Flag(b) => if b then "True" else "False"
    case Span(a, b) => "range(" + a + ", " + b + ")"
    case Number(p) => p
    case Items(_, p) => p
    case Mapping(_, p) => p
  }

  predicate IsEmptyValue(v: Value) {
    v == Text("") || (v.Items? && v.items == []) || (v.Mapping? && v.empty)
  }

  function ExactFilter(field: string, v: Value): string {
    if IsEmptyValue(v) then field + " IS EMPTY"
    else if v.Nothing? then field + " IS NULL"
    else if v.Text? then field + " = '" + Escape(v.text, '\'') + "'"
    else field + " = " + Printed(v)
  }

  function ContainsFilter(field: string, text: string): string {
    field + " CONTAINS \"" + Escape(text, '"') + "\""
  }

  /** Non-empty text filtered with "=" is read back exactly, whatever follows the filter. */
  lemma ExactFilterReadsBack(field: string, text: string, rest: string)
    requires text != ""
    ensures
      var filter := ExactFilter(field, Text(text)) + rest;
      var start := field + " = '";
      start <= filter && ReadQuoted(filter[|start|..], '\'') == Some((text, rest))
  {
    var start := field + " = '";
    var filter := ExactFilter(field, Text(text)) + rest;
    EscapeIsOnePass(text, '\'');
    assert filter == start + (EscapeOnce(text, '\'') + "'" + rest);
    ReadBackExactly(text, '\'', rest);
  }

  lemma ContainsFilterReadsBack(field: string, text: string, rest: string)
    ensures
      var filter := ContainsFilter(field, text) + rest;
      var start := field + " CONTAINS \"";
      start <= filter && ReadQuoted(filter[|start|..], '"') == Some((text, rest))
  {
    var start := field + " CONTAINS \"";
    var filter := ContainsFilter(field, text) + rest;
    EscapeIsOnePass(text, '"');
    assert filter == start + (EscapeOnce(text, '"') + "\"" + rest);
    ReadBackExactly(text, '"', rest);
  }

  /** Different texts never print the same filter, not even the empty one. */
  lemma ExactFilterInjective(field: string, a: string, b: string)
    ensures ExactFilter(field, Text(a)) == ExactFilter(field, Text(b)) <==> a == b
  {
    var start := field + " = '";
    var empty := field + " IS EMPTY";
    assert empty[|field| + 1] == 'I' && start[|field| + 1] == '=';
    if a != "" {
      ExactFilterReadsBack(field, a, "");
      assert ExactFilter(field, Text(a)) + "" == ExactFilter(field, Text(a));
      assert ExactFilter(field, Text(a))[|field| + 1] == start[|field| + 1];
    }
    if b != "" {
      ExactFilterReadsBack(field, b, "");
      assert ExactFilter(field, Text(b)) + "" == ExactFilter(field, Text(b));
      assert ExactFilter(field, Text(b))[|field| + 1] == start[|field| + 1];
    }
  }

  // ----- choosing the operator -----

  datatype Operator =
    | Exact | Gte | Gt | Lte | Lt | In | Range | Exists | IsNull | Contains

  function Name(op: Operator): string {
    match op
    case Exact => "exact"
    case Gte => "gte"
    case Gt => "gt"
    case Lte => "lte"
    case Lt => "lt"
    case In => "in"
    case Range => "range"
    case Exists => "exists"
    case IsNull => "isnull"
    case Contains => "contains"
  }

  /** Substring test. */
  predicate Occurs(p: string, s: string) {
    exists i :: 0 <= i <= |s| && p <= s[i..]
  }

  /** Position of the first double underscore, or the length. */
  function FirstDouble(s: string): (n: nat)
    ensures n <= |s|
  {
    if |s| < 2 then |s| else if s[0] == '_' && s[1] == '_' then 0 else 1 + FirstDouble(s[1..])
  }

  function FieldName(lookup: string): string {
    lookup[..FirstDouble(lookup)]
  }

  /** The branch the lookup takes; none means that the filter is silently dropped. */
  function Dispatch(lookup: string): Option<Operator> {
    if !Occurs("__", lookup) || Occurs("__exact", lookup) then Some(Exact)
    else if Occurs("__gte", lookup) then Some(Gte)
    else if Occurs("__gt", lookup) then Some(Gt)
    else if Occurs("__lte", lookup) then Some(Lte)
    else if Occurs("__lt", lookup) then Some(Lt)
    else if Occurs("__in", lookup) then Some(In)
    else if Occurs("__range", lookup) then Some(Range)
    else if Occurs("__exists", lookup) then Some(Exists)
    else if Occurs("__isnull", lookup) then Some(IsNull)
    else if Occurs("__contains", lookup) then Some(Contains)
    else None
  }

  predicate NoDouble(s: string) {
    forall i :: 0 <= i < |s| - 1 ==> !(s[i] == '_' && s[i + 1] == '_')
  }

  /** A field name that the lookup syntax can carry. */
  predicate PlainField(field: string) {
    NoDouble(field) && (field != [] ==> field[|field| - 1] != '_')
  }

  /** The operator's marker occurs in the lookup behind the field name. */
  predicate Marked(op: Operator, suffix: string) {
    Occurs("__" + Name(op), "__" + suffix)
  }

  /** First operator, in the order in which they are tried, that has the property. */
  function FirstOf(has: Operator -> bool): Option<Operator> {
    if has(Exact) then Some(Exact)
    else if has(Gte) then Some(Gte)
    else if has(Gt) then Some(Gt)
    else if has(Lte) then Some(Lte)
    else if has(Lt) then Some(Lt)
    else if has(In) then Some(In)
    else if has(Range) then Some(Range)
    else if has(Exists) then Some(Exists)
    else if has(IsNull) then Some(IsNull)
    else if has(Contains) then Some(Contains)
    else None
  }

  function MarkedIn(suffix: string): Operator -> bool {
    op => Marked(op, suffix)
  }

  /** The order in which the markers are tried. */
  const TRIED := [Exact, Gte, Gt, Lte, Lt, In, Range, Exists, IsNull, Contains]

  lemma FirstInOrder(has: Operator -> bool, k: nat)
    requires k < |TRIED|
    ensures FirstOf(has) == Some(TRIED[k]) <==> has(TRIED[k]) && forall j :: 0 <= j < k ==> !has(TRIED[j])
  {
    assert TRIED[0] == Exact && TRIED[1] == Gte && TRIED[2] == Gt && TRIED[3] == Lte && TRIED[4] == Lt;
    assert TRIED[5] == In && TRIED[6] == Range && TRIED[7] == Exists && TRIED[8] == IsNull && TRIED[9] == Contains;
  }

  /** First operator whose marker occurs behind the field name. */
  function FirstMarked(suffix: string): Option<Operator> {
    FirstOf(MarkedIn(suffix))
  }

  lemma FirstOfNoneIff(has: Operator -> bool)
    ensures FirstOf(has).None? <==> forall op :: !has(op)
  {
    if FirstOf(has).None? {
      forall op ensures !has(op) {
        match op
        case Exact => case Gte => case Gt => case Lte => case Lt =>
        case In => case Range => case Exists => case IsNull => case Contains =>
      }
    }
  }

  /** The only operators tried before one that they could be taken for are the longer comparisons. */
  lemma FirstOfIs(has: Operator -> bool, op: Operator)
    requires has(op) && forall other :: has(other) ==> other == op || (other == Gt && op == Gte) || (other == Lt && op == Lte)
    ensures FirstOf(has) == Some(op)
  {
  }

  lemma StartsWithDouble(p: string, s: string, i: nat)
    requires i <= |s| && "__" + p <= s[i..]
    ensures i + 1 < |s| && s[i] == '_' && s[i + 1] == '_'
  {
    assert ("__" + p)[0] == '_' && ("__" + p)[1] == '_';
    assert s[i..][0] == s[i] && s[i..][1] == s[i + 1];
  }

  lemma SliceBehind(a: string, b: string, i: nat)
    requires i <= |b|
    ensures (a + b)[|a| + i..] == b[i..]
  {
  }

  /** A double underscore begins at the end of a plain field name or behind it. */
  lemma DoubleBehindField(field: string, t: string, i: nat)
    requires PlainField(field) && i + 1 < |field + t| && (field + t)[i] == '_' && (field + t)[i + 1] == '_'
    ensures i >= |field|
  {
  }

  /** Nothing in the field name counts: markers are found behind it or not at all. */
  lemma OccursAfterField(field: string, suffix: string, p: string)
    requires PlainField(field)
    ensures Occurs("__" + p, field + "__" + suffix) <==> Occurs("__" + p, "__" + suffix)
  {
    var t := "__" + suffix;
    assert field + "__" + suffix == field + t;
    OccursBehind(field, t, p);
  }

  lemma OccursBehind(field: string, t: string, p: string)
    requires PlainField(field)
    ensures Occurs("__" + p, field + t) <==> Occurs("__" + p, t)
  {
    var marker := "__" + p;
    var s := field + t;
    if i :| 0 <= i <= |s| && marker <= s[i..] {
      StartsWithDouble(p, s, i);
      DoubleBehindField(field, t, i);
      SliceBehind(field, t, i - |field|);
      assert marker <= t[i - |field|..];
    }
    if i :| 0 <= i <= |t| && marker <= t[i..] {
      SliceBehind(field, t, i);
      assert marker <= s[|field| + i..];
    }
  }

  /** A suffix that names one operator: no further double underscore. */
  predicate PlainSuffix(suffix: string) {
    NoDouble(suffix) && (suffix != [] ==> suffix[0] != '_')
  }

  /** Behind such a suffix an operator is found exactly when its name starts the suffix. */
  lemma MarkedByPrefix(op: Operator, suffix: string)
    requires PlainSuffix(suffix)
    ensures Marked(op, suffix) <==> Name(op) <= suffix
  {
    var t := "__" + suffix;
    var marker := "__" + Name(op);
    assert t[0..] == t;
    if i :| 0 <= i <= |t| && marker <= t[i..] {
      StartsWithDouble(Name(op), t, i);
      assert i == 0;
      MarkerPrefix(Name(op), suffix);
    }
    if Name(op) <= suffix {
      MarkerPrefix(Name(op), suffix);
      assert marker <= t[0..];
    }
  }

  lemma MarkerPrefix(p: string, suffix: string)
    ensures "__" + p <= "__" + suffix <==> p <= suffix
  {
    assert ("__" + p)[2..] == p && ("__" + suffix)[2..] == suffix;
    assert |p| <= |suffix| ==> ("__" + suffix)[..|p| + 2][2..] == suffix[..|p|];
    if "__" + p <= "__" + suffix {
      assert ("__" + suffix)[..|p| + 2] == "__" + p;
    }
  }

  lemma {:induction false} FieldNameOf(field: string, suffix: string)
    requires PlainField(field)
    ensures FieldName(field + "__" + suffix) == field
  {
    var s := field + "__" + suffix;
    if field != [] {
      assert s[1..] == field[1..] + "__" + suffix;
      assert PlainField(field[1..]) by {
        assert forall i :: 0 <= i < |field| - 1 ==> field[1..][i] == field[i + 1];
      }
      FieldNameOf(field[1..], suffix);
      assert s[0] == field[0];
      assert |field| > 1 ==> s[1] == field[1];
    } else {
      assert s[0] == '_' && s[1] == '_';
    }
  }

  lemma FirstFiveMarkers(field: string, suffix: string)
    requires PlainField(field)
    ensures
      var s := field + "__" + suffix;
      (Occurs("__exact", s) <==> Marked(Exact, suffix)) &&
      (Occurs("__gte", s) <==> Marked(Gte, suffix)) && (Occurs("__gt", s) <==> Marked(Gt, suffix)) &&
      (Occurs("__lte", s) <==> Marked(Lte, suffix)) && (Occurs("__lt", s) <==> Marked(Lt, suffix))
  {
    OccursAfterField(field, suffix, "exact");
    OccursAfterField(field, suffix, "gte");
    OccursAfterField(field, suffix, "gt");
    OccursAfterField(field, suffix, "lte");
    OccursAfterField(field, suffix, "lt");
    assert "__" + "exact" == "__exact" && "__" + "gte" == "__gte" && "__" + "gt" == "__gt";
    assert "__" + "lte" == "__lte" && "__" + "lt" == "__lt";
  }

  lemma LastFiveMarkers(field: string, suffix: string)
    requires PlainField(field)
    ensures
      var s := field + "__" + suffix;
      (Occurs("__in", s) <==> Marked(In, suffix)) && (Occurs("__range", s) <==> Marked(Range, suffix)) &&
      (Occurs("__exists", s) <==> Marked(Exists, suffix)) && (Occurs("__isnull", s) <==> Marked(IsNull, suffix)) &&
      (Occurs("__contains", s) <==> Marked(Contains, suffix))
  {
    OccursAfterField(field, suffix, "in");
    OccursAfterField(field, suffix, "range");
    OccursAfterField(field, suffix, "exists");
    OccursAfterField(field, suffix, "isnull");
    OccursAfterField(field, suffix, "contains");
    assert "__" + "in" == "__in" && "__" + "range" == "__range" && "__" + "exists" == "__exists";
    assert "__" + "isnull" == "__isnull" && "__" + "contains" == "__contains";
  }

  /** A lookup selects its field, and the first operator whose marker occurs behind it; chained lookups included. */
  lemma DispatchBySuffix(field: string, suffix: string)
    requires PlainField(field)
    ensures FieldName(field + "__" + suffix) == field
    ensures Dispatch(field + "__" + suffix) == FirstMarked(suffix)
  {
    FieldNameOf(field, suffix);
    FirstFiveMarkers(field, suffix);
    LastFiveMarkers(field, suffix);
    HasDouble(field, suffix);
  }

  lemma HasDouble(field: string, suffix: string)
    ensures Occurs("__", field + "__" + suffix)
  {
    assert (field + "__" + suffix)[|field|..] == "__" + suffix;
    assert "__" <= (field + "__" + suffix)[|field|..];
  }

  lemma FieldNamePlain(lookup: string)
    ensures FirstDouble(lookup) < |lookup| ==> PlainField(FieldName(lookup))
  {
    FirstDoubleFirst(lookup);
  }

  lemma DoubleFound(lookup: string)
    requires Occurs("__", lookup)
    ensures FirstDouble(lookup) + 1 < |lookup|
    ensures lookup[FirstDouble(lookup)..FirstDouble(lookup) + 2] == "__"
  {
    FirstDoubleFirst(lookup);
    var i :| 0 <= i <= |lookup| && "__" <= lookup[i..];
    assert "__" + "" == "__";
    StartsWithDouble("", lookup, i);
  }

  lemma SplitInThree(s: string, a: nat, b: nat)
    requires a <= b <= |s|
    ensures s == s[..a] + s[a..b] + s[b..]
  {
  }

  /** Every lookup with a double underscore has that form. */
  lemma LookupSplits(lookup: string) returns (suffix: string)
    requires Occurs("__", lookup)
    ensures PlainField(FieldName(lookup)) && lookup == FieldName(lookup) + "__" + suffix
  {
    var n := FirstDouble(lookup);
    DoubleFound(lookup);
    FieldNamePlain(lookup);
    SplitInThree(lookup, n, n + 2);
    suffix := lookup[n + 2..];
  }

  lemma {:induction false} FirstDoubleFirst(s: string)
    ensures
      var n := FirstDouble(s);
      (n < |s| ==> n + 1 < |s| && s[n] == '_' && s[n + 1] == '_') &&
      forall i :: 0 <= i < n && i + 1 < |s| ==> !(s[i] == '_' && s[i + 1] == '_')
  {
    if |s| >= 2 && !(s[0] == '_' && s[1] == '_') {
      var rest := s[1..];
      FirstDoubleFirst(rest);
      var n := FirstDouble(s);
      forall i | 0 <= i < n && i + 1 < |s| ensures !(s[i] == '_' && s[i + 1] == '_') {
        if i > 0 { assert rest[i - 1] == s[i] && rest[i] == s[i + 1]; }
      }
    }
  }

  lemma PrefixesOfNames(op: Operator, other: Operator)
    ensures PlainSuffix(Name(op))
    ensures Name(other) <= Name(op) ==> other == op || (other == Gt && op == Gte) || (other == Lt && op == Lte)
  {
    assert "exact"[0] == "exists"[0] == 'e' && "exact"[2] == 'a' && "exists"[2] == 'i';
    assert "gte"[0] == "gt"[0] == 'g' && "lte"[0] == "lt"[0] == 'l' && "range"[0] == 'r' && "contains"[0] == 'c';
    assert "in"[0] == "isnull"[0] == 'i' && "in"[1] == 'n' && "isnull"[1] == 's';
  }

  lemma FirstMarkedIsOwn(op: Operator)
    ensures FirstMarked(Name(op)) == Some(op)
  {
    var suffix := Name(op);
    forall other: Operator
      ensures Marked(other, suffix) ==> other == op || (other == Gt && op == Gte) || (other == Lt && op == Lte)
      ensures Marked(op, suffix)
    {
      PrefixesOfNames(op, other);
      MarkedByPrefix(other, suffix);
      MarkedByPrefix(op, suffix);
    }
    FirstOfIs(MarkedIn(suffix), op);
  }

  /** No operator name hides behind an earlier one: every documented lookup reaches its own branch. */
  lemma EveryOperatorReached(field: string, op: Operator)
    requires PlainField(field)
    ensures FieldName(field + "__" + Name(op)) == field && Dispatch(field + "__" + Name(op)) == Some(op)
  {
    FirstMarkedIsOwn(op);
    DispatchBySuffix(field, Name(op));
  }

  // ----- the builder -----

  datatype FilterError = TypeMismatch | MissingBound

  /** The filter a lookup adds: none when it is dropped. */
  function FilterFor(lookup: string, v: Value): Result<Option<string>, FilterError> {
    FilterWith(Dispatch(lookup), FieldName(lookup), v)
  }

  function FilterWith(op: Option<Operator>, field: string, v: Value): Result<Option<string>, FilterError> {
    match op
    case None => Ok(None)
    case Some(Exact) => Ok(Some(ExactFilter(field, v)))
    case Some(Gte) => Comparison(field, ">=", v)
    case Some(Gt) => Comparison(field, ">", v)
    case Some(Lte) => Comparison(field, "<=", v)
    case Some(Lt) => Comparison(field, "<", v)
    case Some(In) => if v.Items? then Ok(Some(field + " IN " + v.printed)) else Err(TypeMismatch)
    case Some(Range) =>
      if v.Span? then Ok(Some(field + " " + v.start + " TO " + v.stop))
      else if !v.Items? then Err(TypeMismatch)
      else if |v.items| < 2 then Err(MissingBound)
      else Ok(Some(field + " " + v.items[0] + " TO " + v.items[1]))
    case Some(Exists) => Boolean(field, "EXISTS", v)
    case Some(IsNull) => Boolean(field, "IS NULL", v)
    case Some(Contains) => if v.Text? then Ok(Some(ContainsFilter(field, v.text))) else Err(TypeMismatch)
  }

  /** A boolean counts as a number here. */
  function Comparison(field: string, sign: string, v: Value): Result<Option<string>, FilterError> {
    if v.Number? || v.Flag? then Ok(Some(field + " " + sign + " " + Printed(v))) else Err(TypeMismatch)
  }

  function Boolean(field: string, test: string, v: Value): Result<Option<string>, FilterError> {
    if v.Flag? then Ok(Some(field + " " + (if v.flag then "" else "NOT ") + test)) else Err(TypeMismatch)
  }

  /** A lookup is dropped without an error, so that the search runs unfiltered, exactly when no marker occurs. */
  lemma DroppedIff(field: string, suffix: string, v: Value)
    requires PlainField(field)
    ensures FilterFor(field + "__" + suffix, v) == Ok(None) <==> forall op :: !Marked(op, suffix)
  {
    FilterBySuffix(field, suffix, v);
    DroppedWithoutOperator(FirstMarked(suffix), field, v);
    FirstMarkedNoneIff(suffix);
  }

  lemma FilterBySuffix(field: string, suffix: string, v: Value)
    requires PlainField(field)
    ensures FilterFor(field + "__" + suffix, v) == FilterWith(FirstMarked(suffix), field, v)
  {
    DispatchBySuffix(field, suffix);
  }

  lemma FirstMarkedNoneIff(suffix: string)
    ensures FirstMarked(suffix).None? <==> forall op :: !Marked(op, suffix)
  {
    FirstOfNoneIff(MarkedIn(suffix));
    assert forall op :: MarkedIn(suffix)(op) == Marked(op, suffix);
  }

  /** For a suffix with one operator this means that no operator name starts it. */
  lemma DroppedPlainIff(field: string, suffix: string, v: Value)
    requires PlainField(field) && PlainSuffix(suffix)
    ensures FilterFor(field + "__" + suffix, v) == Ok(None) <==> forall op :: !(Name(op) <= suffix)
  {
    DroppedIff(field, suffix, v);
    forall op: Operator ensures Marked(op, suffix) <==> Name(op) <= suffix {
      MarkedByPrefix(op, suffix);
    }
  }

  lemma NamesStart(op: Operator, suffix: string)
    requires suffix != [] && suffix[0] == 'n'
    ensures !(Name(op) <= suffix)
  {
    assert Name(op)[0] != 'n';
  }

  lemma NegatedLookupParts()
    ensures "category__not_in" == "category" + "__" + "not_in"
    ensures PlainField("category") && PlainSuffix("not_in")
  {
  }

  /** A negated lookup, for example, filters nothing. */
  lemma NegatedLookupDropped(v: Value)
    ensures FilterFor("category__not_in", v) == Ok(None)
  {
    NegatedLookupParts();
    NotStartingNDropped("category", "not_in", v);
  }

  lemma NotStartingNDropped(field: string, suffix: string, v: Value)
    requires PlainField(field) && PlainSuffix(suffix) && suffix != [] && suffix[0] == 'n'
    ensures FilterFor(field + "__" + suffix, v) == Ok(None)
  {
    forall op: Operator ensures !(Name(op) <= suffix) {
      NamesStart(op, suffix);
    }
    DroppedPlainIff(field, suffix, v);
  }

  lemma DroppedWithoutOperator(op: Option<Operator>, field: string, v: Value)
    ensures FilterWith(op, field, v) == Ok(None) <==> op.None?
  {
  }

  // ----- what each lookup prints -----

  /** The lookup of an operator prints that operator's filter on the field. */
  lemma OperatorFilter(field: string, op: Operator, v: Value)
    requires PlainField(field)
    ensures FilterFor(field + "__" + Name(op), v) == FilterWith(Some(op), field, v)
  {
    FilterBySuffix(field, Name(op), v);
    FirstMarkedIsOwn(op);
  }

  /** The documented names. */
  lemma OperatorNames()
    ensures Name(Exact) == "exact" && Name(Gte) == "gte" && Name(Gt) == "gt" && Name(Lte) == "lte" && Name(Lt) == "lt"
    ensures Name(In) == "in" && Name(Range) == "range" && Name(Exists) == "exists"
    ensures Name(IsNull) == "isnull" && Name(Contains) == "contains"
  {
  }

  /** A lookup without a double underscore compares for equality. */
  lemma BareLookup(field: string, v: Value)
    requires NoDouble(field)
    ensures FilterFor(field, v) == FilterWith(Some(Exact), field, v)
  {
    FirstDoubleFirst(field);
    NoDoubleOccurs(field);
    assert FirstDouble(field) == |field| && field[..|field|] == field;
  }

  lemma NoDoubleOccurs(field: string)
    requires NoDouble(field)
    ensures !Occurs("__", field)
  {
    if i :| 0 <= i <= |field| && "__" <= field[i..] {
      assert "__" + "" == "__";
      StartsWithDouble("", field, i);
      assert false;
    }
  }

  /** A number or a boolean, as it is printed behind a sign; nothing else can be compared. */
  predicate Compared(field: string, sign: string, v: Value, r: Result<Option<string>, FilterError>) {
    (v.Number? ==> r == Ok(Some(field + " " + sign + " " + v.printed))) &&
    (v.Flag? ==> r == Ok(Some(field + " " + sign + " " + if v.flag then "True" else "False"))) &&
    (!v.Number? && !v.Flag? ==> r == Err(TypeMismatch))
  }

  lemma ComparisonsPrint(field: string, v: Value)
    ensures Compared(field, ">=", v, FilterWith(Some(Gte), field, v))
    ensures Compared(field, ">", v, FilterWith(Some(Gt), field, v))
    ensures Compared(field, "<=", v, FilterWith(Some(Lte), field, v))
    ensures Compared(field, "<", v, FilterWith(Some(Lt), field, v))
  {
  }

  /** The two tests print NOT for false, and take nothing but booleans. */
  lemma TestsPrint(field: string, v: Value)
    ensures v == Flag(true) ==> FilterWith(Some(Exists), field, v) == Ok(Some(field + " " + "" + "EXISTS"))
    ensures v == Flag(false) ==> FilterWith(Some(Exists), field, v) == Ok(Some(field + " " + "NOT " + "EXISTS"))
    ensures v == Flag(true) ==> FilterWith(Some(IsNull), field, v) == Ok(Some(field + " " + "" + "IS NULL"))
    ensures v == Flag(false) ==> FilterWith(Some(IsNull), field, v) == Ok(Some(field + " " + "NOT " + "IS NULL"))
    ensures !v.Flag? ==> FilterWith(Some(Exists), field, v) == FilterWith(Some(IsNull), field, v) == Err(TypeMismatch)
  {
  }

  /** Lists, ranges and substrings. */
  lemma MembershipPrints(field: string, v: Value)
    ensures FilterWith(Some(In), field, v) ==
      if v.Items? then Ok(Some(field + " IN " + v.printed)) else Err(TypeMismatch)
    ensures FilterWith(Some(Range), field, v) ==
      if v.Span? then Ok(Some(field + " " + v.start + " TO " + v.stop))
      else if v.Items? && |v.items| >= 2 then Ok(Some(field + " " + v.items[0] + " TO " + v.items[1]))
      else if v.Items? then Err(MissingBound)
      else Err(TypeMismatch)
  {
  }

  lemma SubstringPrints(field: string, v: Value)
    ensures v.Text? ==>
      FilterWith(Some(Contains), field, v) == Ok(Some(field + " CONTAINS \"" + EscapeOnce(v.text, '"') + "\""))
    ensures !v.Text? ==> FilterWith(Some(Contains), field, v) == Err(TypeMismatch)
  {
    if v.Text? { EscapeIsOnePass(v.text, '"'); }
  }

  /** Equality: empty values and None are tested for, text is quoted, anything else is printed. */
  lemma EqualityPrints(field: string, v: Value)
    ensures
      var r := FilterWith(Some(Exact), field, v);
      match v
      case Text(text) =>
        r == Ok(Some(if text == "" then field + " IS EMPTY" else field + " = '" + EscapeOnce(text, '\'') + "'"))
      case Nothing => r == Ok(Some(field + " IS NULL"))
      case Number(printed) => r == Ok(Some(field + " = " + printed))
      case Flag(flag) => r == Ok(Some(field + " = " + if flag then "True" else "False"))
      case Items(items, printed) => r == Ok(Some(if items == [] then field + " IS EMPTY" else field + " = " + printed))
      case Mapping(empty, printed) => r == Ok(Some(if empty then field + " IS EMPTY" else field + " = " + printed))
      case Span(start, stop) => r == Ok(Some(field + " = " + ("range(" + start + ", " + stop + ")")))
  {
    if v.Text? { EscapeIsOnePass(v.text, '\''); }
  }

  type Attempt = Result<Option<string>, FilterError>

  function Attempts(lookups: seq<(string, Value)>): (rs: seq<Attempt>)
    ensures |rs| == |lookups|
  {
    seq(|lookups|, i requires 0 <= i < |lookups| => FilterFor(lookups[i].0, lookups[i].1))
  }

  /** The filters added before the first failure; a dropped lookup adds none. */
  function Collected(rs: seq<Attempt>): seq<string> {
    if rs == [] || rs[0].Err? then []
    else (if rs[0].value.Some? then [rs[0].value.value] else []) + Collected(rs[1..])
  }

  predicate AllFine(rs: seq<Attempt>) {
    forall i :: 0 <= i < |rs| ==> rs[i].Ok?
  }

  lemma {:induction false} CollectedStep(rs: seq<Attempt>, i: nat)
    requires i < |rs| && AllFine(rs[..i])
    ensures rs[i].Ok? ==>
      Collected(rs[..i + 1]) == Collected(rs[..i]) + if rs[i].value.Some? then [rs[i].value.value] else []
    ensures rs[i].Err? ==> Collected(rs) == Collected(rs[..i])
  {
    if i > 0 {
      assert rs[0] == rs[..i][0];
      assert rs[..i + 1][1..] == rs[1..][..i] && rs[..i][1..] == rs[1..][..i - 1];
      var tail := rs[1..][..i - 1];
      forall k | 0 <= k < |tail| ensures tail[k].Ok? {
        var next := k + 1;
        assert rs[..i][next] == tail[k];
      }
      CollectedStep(rs[1..], i - 1);
    } else {
      assert rs[..1][1..] == [] && rs[..0] == [];
    }
  }

  class QueryState {
    var filters: seq<string>

    constructor ()
      ensures filters == []
    {
      filters := [];
    }

    /** Lookups are applied one by one; the first error stops, and what was added stays. */
    method ApplyFieldFilters(lookups: seq<(string, Value)>) returns (error: Option<FilterError>)
      modifies this
      ensures filters == old(filters) + Collected(Attempts(lookups))
      ensures error.None? <==> AllFine(Attempts(lookups))
    {
      error := AddAll(Attempts(lookups));
    }

    method AddAll(rs: seq<Attempt>) returns (error: Option<FilterError>)
      modifies this
      ensures filters == old(filters) + Collected(rs)
      ensures error.None? <==> AllFine(rs)
    {
      assert rs[..0] == [];
      for i := 0 to |rs|
        invariant AllFine(rs[..i])
        invariant filters == old(filters) + Collected(rs[..i])
      {
        CollectedStep(rs, i);
        match rs[i] {
          case Err(e) => return Some(e);
          case Ok(None) =>
          case Ok(Some(filter)) => filters := filters + [filter];
        }
      }
      assert rs[..|rs|] == rs;
      return None;
    }
  }
}
