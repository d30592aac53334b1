/**
  `canonicalJson` gives two bodies the same text exactly when they are equal
  JSON values up to field order, an infinity counting as null.
 */
module CanonicalProofs {
  import opened Common
  import opened CanonicalJson

  // ---------------------------------------------------------------- a structural printer

  /** The body with fields sorted by name at every level and infinities as null. */
  function Normal(v: Json): Json {
    match v
    case Infinite(_) => Null
    case Arr(items) => Arr(NormalItems(items))
    case Obj(fields) => Obj(NormalFields(fields))
    case _ => v
  }

  function NormalItems(items: Items): Items {
    match items
    case NoItems => NoItems
    case Item(head, tail) => Item(Normal(head), NormalItems(tail))
  }

  function NormalFields(fields: Fields): Fields {
    match fields
    case NoFields => NoFields
    case Field(name, value, tail) => InsertField(name, Normal(value), NormalFields(tail))
  }

  function InsertField(name: text, value: Json, sorted: Fields): Fields {
    if sorted.NoFields? || !Before(sorted.name, name) then Field(name, value, sorted)
    else Field(sorted.name, sorted.value, InsertField(name, value, sorted.tail))
  }

  /** Prints a tree as it stands, each element followed by a comma or the closing bracket. */
  function Print(v: Json): text {
    match v
    case Null => NULL_TEXT
    case Bool(b) => if b then TRUE_TEXT else FALSE_TEXT
    case Num(digits) => digits
    case Infinite(_) => NULL_TEXT
    case Str(s) => Quote(s)
    case Arr(items) => [91] + PrintItems(items)
    case Obj(fields) => [123] + PrintFields(fields)
  }

  function PrintItems(items: Items): text {
    match items
    case NoItems => [93]
    case Item(head, tail) => Print(head) + (if tail.NoItems? then [93] else [44] + PrintItems(tail))
  }

  function PrintFields(fields: Fields): text {
    match fields
    case NoFields => [125]
    case Field(name, value, tail) =>
      Quote(name) + [58] + Print(value) + (if tail.NoFields? then [125] else [44] + PrintFields(tail))
  }

  function PrintedEntries(fields: Fields): seq<(text, text)> {
    match fields
    case NoFields => []
    case Field(name, value, tail) => [(name, Print(value))] + PrintedEntries(tail)
  }

  lemma {:induction false} InsertMatches(name: text, value: Json, sorted: Fields)
    ensures PrintedEntries(InsertField(name, value, sorted))
         == InsertEntry((name, Print(value)), PrintedEntries(sorted))
  {
    if !sorted.NoFields? {
      var entries := PrintedEntries(sorted);
      assert entries[0] == (sorted.name, Print(sorted.value)) && entries[1..] == PrintedEntries(sorted.tail);
      if Before(sorted.name, name) {
        InsertMatches(name, value, sorted.tail);
      }
    }
  }

  lemma {:induction false} JoinFields(fields: Fields)
    ensures Join(EntryTexts(PrintedEntries(fields))) + [125] == PrintFields(fields)
  {
    hide Quote, Print;
    match fields {
      case NoFields =>
      case Field(name, value, tail) =>
        var entries := PrintedEntries(fields);
        assert entries[0] == (name, Print(value)) && entries[1..] == PrintedEntries(tail);
        var texts := EntryTexts(entries);
        assert texts[0] == Quote(name) + [58] + Print(value) && texts[1..] == EntryTexts(PrintedEntries(tail));
        JoinFields(tail);
        if tail.NoFields? {
          assert |texts| == 1;
        } else {
          assert PrintedEntries(tail) != [] && EntryTexts(PrintedEntries(tail)) != [];
          assert Join(texts) + [125] == texts[0] + [44] + (Join(texts[1..]) + [125]);
        }
    }
  }

  lemma {:induction false} JoinItems(items: Items)
    ensures Join(CanonicalItems(items)) + [93] == PrintItems(NormalItems(items))
    decreases items, 0
  {
    match items {
      case NoItems =>
      case Item(head, tail) =>
        CanonicalIsPrint(head);
        JoinItems(tail);
        var texts := CanonicalItems(items);
        assert texts[0] == Canonical(head) && texts[1..] == CanonicalItems(tail);
        if tail.NoItems? {
          assert |texts| == 1;
        } else {
          assert CanonicalItems(tail) != [];
          assert Join(texts) + [93] == texts[0] + [44] + (Join(texts[1..]) + [93]);
        }
    }
  }

  lemma {:induction false} SortedEntries(fields: Fields)
    ensures SortEntries(CanonicalFields(fields)) == PrintedEntries(NormalFields(fields))
    decreases fields, 0
  {
    match fields {
      case NoFields =>
      case Field(name, value, tail) =>
        CanonicalIsPrint(value);
        SortedEntries(tail);
        var entries := CanonicalFields(fields);
        assert entries[0] == (name, Canonical(value)) && entries[1..] == CanonicalFields(tail);
        InsertMatches(name, Normal(value), NormalFields(tail));
    }
  }

  /** The canonical text is the plain print of the normal form. */
  lemma {:induction false} CanonicalIsPrint(v: Json)
    ensures Canonical(v) == Print(Normal(v))
    decreases v, 1
  {
    match v {
      case Arr(items) =>
        JoinItems(items);
        assert Canonical(v) == [91] + (Join(CanonicalItems(items)) + [93]);
      case Obj(fields) =>
        SortedEntries(fields);
        JoinFields(NormalFields(fields));
        var entries := PrintedEntries(NormalFields(fields));
        assert Canonical(v) == [123] + (Join(EntryTexts(entries)) + [125]);
      case _ =>
    }
  }

  // ---------------------------------------------------------------- prints are uniquely decodable

  lemma HexDigitsDiffer(a: int, b: int)
    requires 0 <= a < 16 && 0 <= b < 16 && HexDigit(a) == HexDigit(b)
    ensures a == b
  {
  }

  lemma FourDigits(u: unit)
    ensures u == (((u / 4096) * 16 + u / 256 % 16) * 16 + u / 16 % 16) * 16 + u % 16
  {
    assert u / 256 / 16 == u / 4096 && u / 16 / 16 == u / 256;
    assert u / 256 == u / 4096 * 16 + u / 256 % 16;
    assert u / 16 == u / 256 * 16 + u / 16 % 16;
  }

  lemma UnicodeEscapeDecodes(u: unit, v: unit)
    requires UnicodeEscape(u) == UnicodeEscape(v)
    ensures u == v
  {
    var a, b := UnicodeEscape(u), UnicodeEscape(v);
    assert a[2] == b[2] && a[3] == b[3] && a[4] == b[4] && a[5] == b[5];
    HexDigitsDiffer(u / 4096, v / 4096);
    HexDigitsDiffer(u / 256 % 16, v / 256 % 16);
    HexDigitsDiffer(u / 16 % 16, v / 16 % 16);
    HexDigitsDiffer(u % 16, v % 16);
    FourDigits(u);
    FourDigits(v);
  }

  predicate LongEscape(u: unit) {
    |EscapeUnit(u)| == 6
  }

  lemma EscapeUnitDecodes(u: unit, v: unit, x: text, y: text)
    requires EscapeUnit(u) + x == EscapeUnit(v) + y
    ensures u == v && x == y
  {
    var p, q := EscapeUnit(u) + x, EscapeUnit(v) + y;
    assert p[0] == EscapeUnit(u)[0] && q[0] == EscapeUnit(v)[0];
    if |EscapeUnit(u)| > 1 && |EscapeUnit(v)| > 1 {
      assert p[1] == EscapeUnit(u)[1] && q[1] == EscapeUnit(v)[1];
      if LongEscape(u) {
        assert p[..6] == EscapeUnit(u) && q[..6] == EscapeUnit(v);
        UnicodeEscapeDecodes(u, v);
      }
    }
    assert u == v;
    var n := |EscapeUnit(u)|;
    assert p[n..] == x && q[n..] == y;
  }

  /** The first unit of an escaped string tells the empty string, a surrogate pair and a single unit apart. */
  lemma EscapeHead(s: text, x: text)
    ensures var p := EscapeAll(s) + [34] + x;
            && (s == [] <==> p[0] == 34)
            && (StartsWithPair(s) <==> HighSurrogate(p[0]))
  {
    var p := EscapeAll(s) + [34] + x;
    if s != [] && !StartsWithPair(s) {
      assert p[0] == EscapeUnit(s[0])[0];
    }
  }

  lemma PairSplits(s: text, x: text)
    requires StartsWithPair(s)
    ensures EscapeAll(s) + [34] + x == [s[0], s[1]] + (EscapeAll(s[2..]) + [34] + x)
  {
  }

  lemma UnitSplits(s: text, x: text)
    requires s != [] && !StartsWithPair(s)
    ensures EscapeAll(s) + [34] + x == EscapeUnit(s[0]) + (EscapeAll(s[1..]) + [34] + x)
  {
  }

  /** An escaped string followed by a quote can be read back, whatever follows. */
  lemma {:induction false} EscapeAllDecodes(s: text, t: text, x: text, y: text)
    requires EscapeAll(s) + [34] + x == EscapeAll(t) + [34] + y
    ensures s == t && x == y
    decreases |s|
  {
    hide EscapeUnit;
    EscapeHead(s, x);
    EscapeHead(t, y);
    if s == [] || t == [] {
      assert s == t == [];
      assert EscapeAll(s) + [34] + x == [34] + x && EscapeAll(t) + [34] + y == [34] + y;
      DropPrefix([34], x, y);
    } else if StartsWithPair(s) {
      PairSplits(s, x);
      PairSplits(t, y);
      var x', y' := EscapeAll(s[2..]) + [34] + x, EscapeAll(t[2..]) + [34] + y;
      assert ([s[0], s[1]] + x')[0] == ([t[0], t[1]] + y')[0];
      assert ([s[0], s[1]] + x')[1] == ([t[0], t[1]] + y')[1];
      assert s[0] == t[0] && s[1] == t[1];
      DropPrefix([s[0], s[1]], x', y');
      EscapeAllDecodes(s[2..], t[2..], x, y);
      assert s == [s[0], s[1]] + s[2..] && t == [t[0], t[1]] + t[2..];
    } else {
      UnitSplits(s, x);
      UnitSplits(t, y);
      EscapeUnitDecodes(s[0], t[0], EscapeAll(s[1..]) + [34] + x, EscapeAll(t[1..]) + [34] + y);
      EscapeAllDecodes(s[1..], t[1..], x, y);
      assert s == [s[0]] + s[1..] && t == [t[0]] + t[1..];
    }
  }

  predicate Stops(x: text) {
    x == [] || x[0] == 44 || x[0] == 93 || x[0] == 125
  }

  lemma {:induction false} NumberDecodes(a: text, b: text, x: text, y: text)
    requires (forall i :: 0 <= i < |a| ==> NumberUnit(a[i])) && (forall i :: 0 <= i < |b| ==> NumberUnit(b[i]))
    requires Stops(x) && Stops(y) && a + x == b + y
    ensures a == b && x == y
    decreases |a|
  {
    assert a == [] ==> a + x == x;
    assert b == [] ==> b + y == y;
    assert a != [] ==> (a + x)[0] == a[0];
    assert b != [] ==> (b + y)[0] == b[0];
    if a != [] && b != [] {
      assert (a + x)[1..] == a[1..] + x && (b + y)[1..] == b[1..] + y;
      NumberDecodes(a[1..], b[1..], x, y);
      assert a == [a[0]] + a[1..] && b == [b[0]] + b[1..];
    }
  }

  /** Trees as parsed, but without infinities. */
  predicate Printable(v: Json) {
    match v
    case Num(digits) => NumberText(digits)
    case Infinite(_) => false
    case Arr(items) => PrintableItems(items)
    case Obj(fields) => PrintableFields(fields)
    case _ => true
  }

  predicate PrintableItems(items: Items) {
    match items
    case NoItems => true
    case Item(head, tail) => Printable(head) && PrintableItems(tail)
  }

  predicate PrintableFields(fields: Fields) {
    match fields
    case NoFields => true
    case Field(_, value, tail) => Printable(value) && PrintableFields(tail)
  }

  /** The kind of a value can be read off the first unit of its print. */
  function Lead(v: Json): unit
    requires Printable(v)
  {
    match v
    case Null => 110
    case Bool(b) => if b then 116 else 102
    case Num(digits) => digits[0]
    case Str(_) => 34
    case Arr(_) => 91
    case Obj(_) => 123
  }

  lemma LeadOfPrint(v: Json, x: text)
    requires Printable(v)
    ensures (Print(v) + x)[0] == Lead(v)
  {
  }

  lemma DropPrefix(prefix: text, a: text, b: text)
    requires prefix + a == prefix + b
    ensures a == b
  {
    assert (prefix + a)[|prefix|..] == a;
    assert (prefix + b)[|prefix|..] == b;
  }

  lemma QuoteDecodes(s: text, t: text, x: text, y: text)
    requires Quote(s) + x == Quote(t) + y
    ensures s == t && x == y
  {
    hide Quote, EscapeAll;
    QuoteSplits(s, x);
    QuoteSplits(t, y);
    DropPrefix([34], EscapeAll(s) + [34] + x, EscapeAll(t) + [34] + y);
    EscapeAllDecodes(s, t, x, y);
  }

  lemma QuoteSplits(s: text, x: text)
    ensures Quote(s) + x == [34] + (EscapeAll(s) + [34] + x)
  {
    hide EscapeAll;
    Regroup([34], EscapeAll(s), [34]);
    Regroup([34], EscapeAll(s) + [34], x);
  }

  lemma PrintSplits(v: Json, x: text)
    ensures match v
            case Null => Print(v) == NULL_TEXT
            case Bool(b) => Print(v) == if b then TRUE_TEXT else FALSE_TEXT
            case Num(digits) => Print(v) == digits
            case Infinite(_) => true
            case Str(s) => Print(v) == Quote(s)
            case Arr(items) => Print(v) + x == [91] + (PrintItems(items) + x)
            case Obj(fields) => Print(v) + x == [123] + (PrintFields(fields) + x)
  {
    hide PrintItems, PrintFields, Quote;
  }

  /** No print is a prefix of another in any context a print can stand in: the tree can be read back. */
  lemma {:induction false} PrintDecodes(a: Json, b: Json, x: text, y: text)
    requires Printable(a) && Printable(b) && Stops(x) && Stops(y)
    requires Print(a) + x == Print(b) + y
    ensures a == b && x == y
    decreases a
  {
    LeadOfPrint(a, x);
    LeadOfPrint(b, y);
    assert Lead(a) == Lead(b);
    SameLead(a, b);
    PrintSplits(a, x);
    PrintSplits(b, y);
    hide Print, PrintItems, PrintFields, Quote;
    match a {
      case Null =>
        DropPrefix(NULL_TEXT, x, y);
      case Bool(flag) =>
        DropPrefix(Print(a), x, y);
      case Num(digits) =>
        NumberDecodes(digits, b.digits, x, y);
      case Str(s) =>
        QuoteDecodes(s, b.s, x, y);
      case Arr(items) =>
        DropPrefix([91], PrintItems(items) + x, PrintItems(b.items) + y);
        ItemsDecode(items, b.items, x, y);
      case Obj(fields) =>
        DropPrefix([123], PrintFields(fields) + x, PrintFields(b.fields) + y);
        FieldsDecode(fields, b.fields, x, y);
    }
  }

  lemma SameLead(a: Json, b: Json)
    requires Printable(a) && Printable(b) && Lead(a) == Lead(b)
    ensures match a
            case Null => b == Null
            case Bool(_) => b == a
            case Num(_) => b.Num?
            case Infinite(_) => true
            case Str(_) => b.Str?
            case Arr(_) => b.Arr?
            case Obj(_) => b.Obj?
  {
  }

  /** What follows the first element: the closing bracket, or a comma and the rest. */
  function AfterItem(tail: Items): text {
    if tail.NoItems? then [93] else [44] + PrintItems(tail)
  }

  lemma ItemSplits(a: Items, x: text)
    requires a.Item?
    ensures PrintItems(a) + x == Print(a.head) + (AfterItem(a.tail) + x)
  {
    hide Print, AfterItem, PrintItems;
    ItemPrints(a);
    Regroup(Print(a.head), AfterItem(a.tail), x);
  }

  lemma ItemPrints(a: Items)
    requires a.Item?
    ensures PrintItems(a) == Print(a.head) + AfterItem(a.tail)
  {
    hide Print;
  }

  lemma AfterItemSplits(tail: Items, x: text)
    ensures (AfterItem(tail) + x)[0] == if tail.NoItems? then 93 else 44
    ensures AfterItem(tail) + x == if tail.NoItems? then [93] + x else [44] + (PrintItems(tail) + x)
  {
    hide PrintItems;
  }

  lemma {:induction false} ItemsDecode(a: Items, b: Items, x: text, y: text)
    requires PrintableItems(a) && PrintableItems(b)
    requires PrintItems(a) + x == PrintItems(b) + y
    ensures a == b && x == y
    decreases a
  {
    hide Print, AfterItem;
    ItemsLead(a, x);
    ItemsLead(b, y);
    if a.NoItems? || b.NoItems? {
      assert a == b == NoItems;
      DropPrefix([93], x, y);
    } else {
      var p, q := AfterItem(a.tail) + x, AfterItem(b.tail) + y;
      ItemSplits(a, x);
      ItemSplits(b, y);
      AfterItemSplits(a.tail, x);
      AfterItemSplits(b.tail, y);
      PrintDecodes(a.head, b.head, p, q);
      if a.tail.NoItems? {
        DropPrefix([93], x, y);
      } else {
        DropPrefix([44], PrintItems(a.tail) + x, PrintItems(b.tail) + y);
        ItemsDecode(a.tail, b.tail, x, y);
      }
    }
  }

  lemma ItemsLead(a: Items, x: text)
    requires PrintableItems(a)
    ensures a.NoItems? <==> (PrintItems(a) + x)[0] == 93
  {
    if a.Item? {
      ItemSplits(a, x);
      LeadOfPrint(a.head, AfterItem(a.tail) + x);
    }
  }

  function AfterField(tail: Fields): text {
    if tail.NoFields? then [125] else [44] + PrintFields(tail)
  }

  lemma FieldSplits(a: Fields, x: text)
    requires a.Field?
    ensures PrintFields(a) + x == Quote(a.name) + ([58] + (Print(a.value) + (AfterField(a.tail) + x)))
  {
    hide Quote, Print, AfterField, PrintFields;
    FieldPrints(a);
    Regroup(Quote(a.name) + [58] + Print(a.value), AfterField(a.tail), x);
    Regroup(Quote(a.name) + [58], Print(a.value), AfterField(a.tail) + x);
    Regroup(Quote(a.name), [58], Print(a.value) + (AfterField(a.tail) + x));
  }

  lemma FieldPrints(a: Fields)
    requires a.Field?
    ensures PrintFields(a) == Quote(a.name) + [58] + Print(a.value) + AfterField(a.tail)
  {
    hide Quote, Print;
  }

  lemma AfterFieldSplits(tail: Fields, x: text)
    ensures (AfterField(tail) + x)[0] == if tail.NoFields? then 125 else 44
    ensures AfterField(tail) + x == if tail.NoFields? then [125] + x else [44] + (PrintFields(tail) + x)
  {
    hide PrintFields;
  }

  lemma {:induction false} FieldsDecode(a: Fields, b: Fields, x: text, y: text)
    requires PrintableFields(a) && PrintableFields(b)
    requires PrintFields(a) + x == PrintFields(b) + y
    ensures a == b && x == y
    decreases a
  {
    hide Quote, Print, AfterField;
    FieldsLead(a, x);
    FieldsLead(b, y);
    if a.NoFields? || b.NoFields? {
      assert a == b == NoFields;
      DropPrefix([125], x, y);
    } else {
      var p, q := AfterField(a.tail) + x, AfterField(b.tail) + y;
      FieldSplits(a, x);
      FieldSplits(b, y);
      QuoteDecodes(a.name, b.name, [58] + (Print(a.value) + p), [58] + (Print(b.value) + q));
      DropPrefix([58], Print(a.value) + p, Print(b.value) + q);
      AfterFieldSplits(a.tail, x);
      AfterFieldSplits(b.tail, y);
      PrintDecodes(a.value, b.value, p, q);
      if a.tail.NoFields? {
        DropPrefix([125], x, y);
      } else {
        DropPrefix([44], PrintFields(a.tail) + x, PrintFields(b.tail) + y);
        FieldsDecode(a.tail, b.tail, x, y);
      }
    }
  }

  lemma FieldsLead(a: Fields, x: text)
    ensures a.NoFields? <==> (PrintFields(a) + x)[0] == 125
  {
    if a.Field? {
      FieldSplits(a, x);
    }
  }

  // ---------------------------------------------------------------- the normal form is the meaning

  lemma {:induction false} BeforeOrdersStrictly(a: text, b: text)
    ensures !(Before(a, b) && Before(b, a))
    ensures a != b ==> Before(a, b) || Before(b, a)
    decreases |a|
  {
    if a != [] && b != [] {
      BeforeOrdersStrictly(a[1..], b[1..]);
      assert a == [a[0]] + a[1..] && b == [b[0]] + b[1..];
    }
  }

  lemma {:induction false} BeforeIsTransitive(a: text, b: text, c: text)
    requires Before(a, b) && Before(b, c)
    ensures Before(a, c)
    decreases |a|
  {
    if a != [] && a[0] == b[0] && b[0] == c[0] {
      BeforeIsTransitive(a[1..], b[1..], c[1..]);
    }
  }

  predicate Sorted(v: Json) {
    match v
    case Arr(items) => SortedItems(items)
    case Obj(fields) => SortedFields(fields)
    case _ => true
  }

  predicate SortedItems(items: Items) {
    match items
    case NoItems => true
    case Item(head, tail) => Sorted(head) && SortedItems(tail)
  }

  predicate SortedFields(fields: Fields) {
    match fields
    case NoFields => true
    case Field(name, value, tail) =>
      (forall other :: other in Names(tail) ==> Before(name, other)) && Sorted(value) && SortedFields(tail)
  }

  lemma {:induction false} InsertMeaning(name: text, value: Json, sorted: Fields)
    requires name !in Names(sorted) && SortedFields(sorted)
    ensures var result := InsertField(name, value, sorted);
            && Names(result) == {name} + Names(sorted)
            && FieldMeanings(result) == FieldMeanings(sorted)[name := MeaningOf(value)]
    decreases sorted
  {
    hide MeaningOf, Before;
    if sorted.Field? && Before(sorted.name, name) {
      InsertMeaning(name, value, sorted.tail);
      var m := FieldMeanings(sorted.tail);
      var first: map<text, Meaning> := m[name := MeaningOf(value)];
      var second: map<text, Meaning> := m[sorted.name := MeaningOf(sorted.value)];
      assert first[sorted.name := MeaningOf(sorted.value)] == second[name := MeaningOf(value)];
    }
  }

  lemma {:induction false} InsertKeeps(name: text, value: Json, sorted: Fields)
    requires name !in Names(sorted) && SortedFields(sorted) && Sorted(value)
    requires Printable(value) && PrintableFields(sorted)
    ensures SortedFields(InsertField(name, value, sorted)) && PrintableFields(InsertField(name, value, sorted))
    decreases sorted
  {
    if sorted.Field? {
      if Before(sorted.name, name) {
        InsertKeeps(name, value, sorted.tail);
        InsertMeaning(name, value, sorted.tail);
      } else {
        BeforeOrdersStrictly(sorted.name, name);
        forall other | other in Names(sorted) ensures Before(name, other) {
          if other != sorted.name {
            BeforeIsTransitive(name, sorted.name, other);
          }
        }
      }
    }
  }

  lemma {:induction false} NormalKeeps(v: Json)
    requires Parsed(v)
    ensures Sorted(Normal(v)) && Printable(Normal(v)) && MeaningOf(Normal(v)) == MeaningOf(Finite(v))
    decreases v
  {
    match v {
      case Arr(items) => NormalItemsKeep(items);
      case Obj(fields) => NormalFieldsKeep(fields);
      case _ =>
    }
  }

  lemma {:induction false} NormalItemsKeep(items: Items)
    requires ParsedItems(items)
    ensures var n := NormalItems(items);
            SortedItems(n) && PrintableItems(n) && ItemMeanings(n) == ItemMeanings(FiniteItems(items))
    decreases items
  {
    if items.Item? {
      NormalKeeps(items.head);
      NormalItemsKeep(items.tail);
    }
  }

  lemma {:induction false} NormalFieldsKeep(fields: Fields)
    requires ParsedFields(fields)
    ensures var n := NormalFields(fields);
            && SortedFields(n) && PrintableFields(n) && Names(n) == Names(fields)
            && FieldMeanings(n) == FieldMeanings(FiniteFields(fields))
    decreases fields
  {
    if fields.Field? {
      NormalKeeps(fields.value);
      NormalFieldsKeep(fields.tail);
      InsertKeeps(fields.name, Normal(fields.value), NormalFields(fields.tail));
      InsertMeaning(fields.name, Normal(fields.value), NormalFields(fields.tail));
    }
  }

  lemma {:induction false} MeaningKeys(fields: Fields)
    ensures FieldMeanings(fields).Keys == Names(fields)
  {
    if fields.Field? {
      MeaningKeys(fields.tail);
    }
  }

  /** Sorted trees with the same meaning are the same tree. */
  lemma {:induction false} SortedIsUnique(a: Json, b: Json)
    requires Sorted(a) && Sorted(b) && MeaningOf(a) == MeaningOf(b)
    ensures a == b
    decreases a
  {
    match a {
      case Arr(items) => SortedItemsUnique(items, b.items);
      case Obj(fields) => SortedFieldsUnique(fields, b.fields);
      case _ =>
    }
  }

  lemma {:induction false} SortedItemsUnique(a: Items, b: Items)
    requires SortedItems(a) && SortedItems(b) && ItemMeanings(a) == ItemMeanings(b)
    ensures a == b
    decreases a
  {
    if a.Item? && b.Item? {
      assert ItemMeanings(a)[0] == MeaningOf(a.head) && ItemMeanings(b)[0] == MeaningOf(b.head);
      assert ItemMeanings(a)[1..] == ItemMeanings(a.tail) && ItemMeanings(b)[1..] == ItemMeanings(b.tail);
      SortedIsUnique(a.head, b.head);
      SortedItemsUnique(a.tail, b.tail);
    }
  }

  lemma {:induction false} SortedFieldsUnique(a: Fields, b: Fields)
    requires SortedFields(a) && SortedFields(b) && FieldMeanings(a) == FieldMeanings(b)
    ensures a == b
    decreases a
  {
    MeaningKeys(a);
    MeaningKeys(b);
    assert Names(a) == Names(b);
    if a.Field? && b.Field? {
      assert a.name in Names(a) && b.name in Names(b);
      BeforeOrdersStrictly(a.name, b.name);
      assert a.name == b.name;
      assert MeaningOf(a.value) == FieldMeanings(a)[a.name] == MeaningOf(b.value);
      SortedIsUnique(a.value, b.value);
      TailMeaning(a);
      TailMeaning(b);
      SortedFieldsUnique(a.tail, b.tail);
    }
  }

  lemma TailMeaning(a: Fields)
    requires a.Field? && SortedFields(a)
    ensures FieldMeanings(a.tail) == FieldMeanings(a) - {a.name}
  {
    MeaningKeys(a.tail);
    if a.name in Names(a.tail) {
      BeforeOrdersStrictly(a.name, a.name);
    }
  }

  // ---------------------------------------------------------------- main results

  /**
    Two parsed bodies get the same canonical text exactly when, infinities read
    as null, they are the same JSON value up to the order of object fields.
   */
  lemma CanonicalSeparates(a: Json, b: Json)
    requires Parsed(a) && Parsed(b)
    ensures Canonical(a) == Canonical(b) <==> MeaningOf(Finite(a)) == MeaningOf(Finite(b))
  {
    CanonicalIsPrint(a);
    CanonicalIsPrint(b);
    NormalKeeps(a);
    NormalKeeps(b);
    if Canonical(a) == Canonical(b) {
      assert Print(Normal(a)) + [] == Print(Normal(b)) + [];
      PrintDecodes(Normal(a), Normal(b), [], []);
    }
    if MeaningOf(Finite(a)) == MeaningOf(Finite(b)) {
      SortedIsUnique(Normal(a), Normal(b));
    }
  }

  /** Without an overflowed number on either side the canonical text decides equality of JSON values. */
  lemma CanonicalSeparatesFinite(a: Json, b: Json)
    requires Parsed(a) && Parsed(b) && Finite(a) == a && Finite(b) == b
    ensures Canonical(a) == Canonical(b) <==> MeaningOf(a) == MeaningOf(b)
  {
    CanonicalSeparates(a, b);
  }

  /** `{"x":1e999}` and `{"x":null}` are different JSON texts with one canonical text. */
  lemma OverflowCollides()
    ensures var a, b := Obj(Field([120], Infinite(false), NoFields)), Obj(Field([120], Null, NoFields));
            Parsed(a) && Parsed(b) && MeaningOf(a) != MeaningOf(b) && Canonical(a) == Canonical(b)
  {
    var a, b := Obj(Field([120], Infinite(false), NoFields)), Obj(Field([120], Null, NoFields));
    CanonicalSeparates(a, b);
    assert FieldMeanings(a.fields)[[120]] == MInfinite(false) && FieldMeanings(b.fields)[[120]] == MNull;
  }

  // ---------------------------------------------------------------- strings as JSON reads them

  /** The value of four hex digits in lower case. */
  function HexValue(t: text): Option<unit>
    requires |t| == 4
  {
    if forall i :: 0 <= i < 4 ==> 48 <= t[i] <= 57 || 97 <= t[i] <= 102 then
      var digits := seq(4, i requires 0 <= i < 4 => if t[i] <= 57 then t[i] - 48 else t[i] - 87);
      Some(digits[0] * 4096 + digits[1] * 256 + digits[2] * 16 + digits[3])
    else None
  }

  /** The short escapes of section 7 of RFC 8259. */
  function ShortEscape(u: unit): Option<unit> {
    if u == '"' as int || u == '\\' as int || u == '/' as int then Some(u)
    else if u == 'b' as int then Some(0x08)
    else if u == 'f' as int then Some(0x0C)
    else if u == 'n' as int then Some(0x0A)
    else if u == 'r' as int then Some(0x0D)
    else if u == 't' as int then Some(0x09)
    else None
  }

  /** The string that the contents of a JSON string denote, after that section; nothing if they are malformed. */
  function Unescaped(t: text): Option<text>
    decreases |t|
  {
    if t == [] then Some([])
    else if t[0] == '\\' as int then
      if |t| >= 6 && t[1] == 'u' as int then
        var u, rest := HexValue(t[2..6]), Unescaped(t[6..]);
        if u.Some? && rest.Some? then Some([u.value] + rest.value) else None
      else if |t| >= 2 && ShortEscape(t[1]).Some? then
        var rest := Unescaped(t[2..]);
        if rest.Some? then Some([ShortEscape(t[1]).value] + rest.value) else None
      else None
    else if t[0] < 0x20 || t[0] == '"' as int then None
    else
      var rest := Unescaped(t[1..]);
      if rest.Some? then Some([t[0]] + rest.value) else None
  }

  lemma UnescapedFirst(u: unit, rest: text, s: text)
    requires Unescaped(rest) == Some(s)
    ensures Unescaped(EscapeUnit(u) + rest) == Some([u] + s)
  {
    hide HexValue, HexDigit;
    var t := EscapeUnit(u) + rest;
    if |EscapeUnit(u)| == 6 {
      HexReadsBack(u);
      assert t[2..6] == UnicodeEscape(u)[2..6] && t[6..] == rest;
    } else {
      assert t[|EscapeUnit(u)|..] == rest;
    }
  }

  lemma HexReadsBack(u: unit)
    ensures HexValue(UnicodeEscape(u)[2..6]) == Some(u)
  {
    var t := UnicodeEscape(u)[2..6];
    assert t == [HexDigit(u / 4096), HexDigit(u / 256 % 16), HexDigit(u / 16 % 16), HexDigit(u % 16)];
    HexDigits(u);
    hide UnicodeEscape;
    DigitsReadBack(u / 4096, u / 256 % 16, u / 16 % 16, u % 16);
  }

  lemma HexDigits(u: unit)
    ensures u / 4096 < 16 && u / 4096 * 4096 + u / 256 % 16 * 256 + u / 16 % 16 * 16 + u % 16 == u
  {
    var a, b, c := u / 16, u / 256, u / 4096;
    assert b == a / 16 && c == b / 16;
    assert u == 16 * a + u % 16 && a == 16 * b + a % 16 && b == 16 * c + b % 16;
  }

  lemma DigitsReadBack(a: nat, b: nat, c: nat, d: nat)
    requires a < 16 && b < 16 && c < 16 && d < 16
    ensures HexValue([HexDigit(a), HexDigit(b), HexDigit(c), HexDigit(d)])
         == Some(a * 4096 + b * 256 + c * 16 + d)
  {
  }

  /** A unit that stands for itself. */
  lemma UnescapedPlain(u: unit, rest: text)
    requires Unescaped(rest).Some? && u >= 0x80
    ensures Unescaped([u] + rest) == Some([u] + Unescaped(rest).value)
  {
    assert ([u] + rest)[1..] == rest;
  }

  /** A quoted string is one that JSON reads back as it was. */
  lemma {:induction false} EscapedReadsBack(s: text)
    ensures Unescaped(EscapeAll(s)) == Some(s)
    decreases |s|
  {
    hide Unescaped, EscapeUnit;
    if s == [] {
      NothingUnescaped();
    } else if StartsWithPair(s) {
      var rest := EscapeAll(s[2..]);
      EscapedReadsBack(s[2..]);
      UnescapedPlain(s[1], rest);
      UnescapedPlain(s[0], [s[1]] + rest);
      assert EscapeAll(s) == [s[0]] + ([s[1]] + rest);
      assert s == [s[0]] + ([s[1]] + s[2..]);
    } else {
      EscapedReadsBack(s[1..]);
      UnescapedFirst(s[0], EscapeAll(s[1..]), s[1..]);
      assert s == [s[0]] + s[1..];
    }
  }

  lemma NothingUnescaped()
    ensures Unescaped([]) == Some([])
  {
  }
}
