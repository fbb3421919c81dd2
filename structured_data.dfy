/** The schema.org JSON-LD object that app/components/StructuredData.tsx
    builds for a page, and the id of the script element carrying it. The
    object is modelled as a JavaScript value; serialising it with
    `JSON.stringify` and rendering the script element are not modelled. */
module StructuredData {
  import opened Wrappers

  /** JavaScript values as far as the builder handles them (numbers are
      the integers the builder produces or copies). */
  datatype Js =
    | Undefined
    | Null
    | Bool(b: bool)
    | Num(n: int)
    | Str(s: string)
    | Arr(elems: seq<Js>)
    | Obj(props: seq<(string, Js)>)

  /** JavaScript truthiness: `undefined`, `null`, `false`, `0` and `""` are
      falsy. */
  predicate Truthy(v: Js) {
    match v
    case Undefined => false
    case Null => false
    case Bool(b) => b
    case Num(n) => n != 0
    case Str(s) => s != []
    case Arr(_) => true
    case Obj(_) => true
  }

  /** `a || b`. */
  function Or(a: Js, b: Js): Js {
    if Truthy(a) then a else b
  }

  /** `||` is truthy when either side is, groups either way, and has every
      falsy value as a left identity and itself as a fixed point. */
  lemma OrLaws(a: Js, b: Js, c: Js)
    ensures Truthy(Or(a, b)) <==> Truthy(a) || Truthy(b)
    ensures Or(Or(a, b), c) == Or(a, Or(b, c))
    ensures !Truthy(a) ==> Or(a, b) == b
    ensures Truthy(a) ==> Or(a, b) == a
    ensures Or(a, a) == a
  {
  }

  /** The value of the first property named `key`, or `undefined`. */
  function Lookup(props: seq<(string, Js)>, key: string): (v: Js)
    ensures (forall k :: 0 <= k < |props| ==> props[k].0 != key) ==> v == Undefined
  {
    if props == [] then Undefined
    else if props[0].0 == key then props[0].1
    else Lookup(props[1..], key)
  }

  /** The first property named `key` decides the lookup. */
  lemma {:induction false} LookupAt(props: seq<(string, Js)>, key: string, k: nat)
    requires k < |props| && props[k].0 == key
    requires forall j :: 0 <= j < k ==> props[j].0 != key
    ensures Lookup(props, key) == props[k].1
    decreases k
  {
    if k > 0 {
      LookupAt(props[1..], key, k - 1);
    }
  }

  /** Property access `v[key]` on an object; `undefined` on anything else. */
  function Get(v: Js, key: string): Js {
    if v.Obj? then Lookup(v.props, key) else Undefined
  }

  function Digit(d: nat): (c: char)
    requires d < 10
    ensures '0' <= c <= '9' && c as int - '0' as int == d
  {
    "0123456789"[d]
  }

  predicate IsDigit(c: char) {
    '0' <= c <= '9'
  }

  predicate AllDigits(s: string) {
    forall i :: 0 <= i < |s| ==> IsDigit(s[i])
  }

  /** The number a string of decimal digits denotes. */
  function DecimalValue(s: string): nat
    requires AllDigits(s)
  {
    if s == [] then 0 else 10 * DecimalValue(s[..|s| - 1]) + (s[|s| - 1] as int - '0' as int)
  }

  /** The decimal numeral of a natural number: digits only, no leading
      zero, denoting `n`. */
  function NatToDecimal(n: nat): (s: string)
    ensures |s| >= 1 && AllDigits(s)
    ensures |s| == 1 || s[0] != '0'
    ensures DecimalValue(s) == n
    decreases n
  {
    if n < 10 then [Digit(n)]
    else
      var high := NatToDecimal(n / 10);
      var s := high + [Digit(n % 10)];
      assert s[..|s| - 1] == high;
      s
  }

  /** The numeral of an integer: a minus sign exactly for negative numbers,
      then the numeral of its magnitude. */
  function IntToDecimal(n: int): (s: string)
    ensures |s| >= 1 && (s[0] == '-' <==> n < 0)
    ensures var digits := if n < 0 then s[1..] else s;
      AllDigits(digits) && digits != [] && DecimalValue(digits) == if n < 0 then -n else n
  {
    if n < 0 then
      var digits := NatToDecimal(-n);
      assert ("-" + digits)[1..] == digits;
      "-" + digits
    else NatToDecimal(n)
  }

  /** String conversion inside a template literal. */
  function ToString(v: Js): (r: string)
    ensures v.Undefined? ==> r == "undefined"
    ensures v.Str? ==> r == v.s
    ensures v.Num? ==> r == IntToDecimal(v.n)
    ensures v.Arr? && v.elems == [] ==> r == []
    decreases v
  {
    match v
    case Undefined => "undefined"
    case Null => "null"
    case Bool(b) => if b then "true" else "false"
    case Num(n) => IntToDecimal(n)
    case Str(s) => s
    case Arr(elems) => JoinElems(v, elems)
    case Obj(_) => "[object Object]"
  }

  /** `Array.prototype.join(',')`: `undefined` and `null` elements become
      empty strings. */
  function JoinElems(whole: Js, elems: seq<Js>): string
    requires forall e :: e in elems ==> e < whole
    decreases whole, |elems|
  {
    if elems == [] then []
    else
      assert elems[0] in elems;
      assert forall e :: e in elems[1..] ==> e in elems;
      var first := if elems[0].Undefined? || elems[0].Null? then [] else ToString(elems[0]);
      if |elems| == 1 then first else first + "," + JoinElems(whole, elems[1..])
  }

  /** What one element contributes to the join. */
  function ElemText(e: Js): string {
    if e.Undefined? || e.Null? then [] else ToString(e)
  }

  /** The join does not depend on which enclosing value bounds the
      elements. */
  lemma {:induction false} JoinElemsWhole(w1: Js, w2: Js, elems: seq<Js>)
    requires forall e :: e in elems ==> e < w1
    requires forall e :: e in elems ==> e < w2
    ensures JoinElems(w1, elems) == JoinElems(w2, elems)
    decreases |elems|
  {
    if |elems| > 1 {
      assert forall e :: e in elems[1..] ==> e in elems;
      JoinElemsWhole(w1, w2, elems[1..]);
    }
  }

  lemma CommaAssoc(x: string, y: string, z: string)
    ensures x + "," + (y + "," + z) == (x + "," + y) + "," + z
  {
  }

  /** Joining two non-empty runs of elements puts one ',' between their
      joins. */
  lemma {:induction false} JoinElemsAppend(whole: Js, a: seq<Js>, b: seq<Js>)
    requires a != [] && b != []
    requires forall e :: e in a + b ==> e < whole
    ensures forall e :: e in a ==> e < whole
    ensures forall e :: e in b ==> e < whole
    ensures JoinElems(whole, a + b) == JoinElems(whole, a) + "," + JoinElems(whole, b)
    decreases |a|
  {
    assert forall e :: e in a ==> e in a + b;
    assert forall e :: e in b ==> e in a + b;
    assert (a + b)[0] == a[0] && (a + b)[1..] == a[1..] + b;
    assert forall e :: e in a[1..] + b ==> e in a + b;
    assert JoinElems(whole, a + b) == ElemText(a[0]) + "," + JoinElems(whole, a[1..] + b);
    if |a| > 1 {
      JoinElemsAppend(whole, a[1..], b);
      CommaAssoc(ElemText(a[0]), JoinElems(whole, a[1..]), JoinElems(whole, b));
    }
  }

  /** `Array.prototype.toString`: a one-element array reads as its element
      (or "" for `undefined` and `null`), and the string of a concatenation
      of two non-empty arrays is their strings separated by ','. */
  lemma ArrayToString(e: Js, a: seq<Js>, b: seq<Js>)
    ensures ToString(Arr([e])) == ElemText(e)
    ensures a != [] && b != [] ==> ToString(Arr(a + b)) == ToString(Arr(a)) + "," + ToString(Arr(b))
  {
    if a != [] && b != [] {
      var w := Arr(a + b);
      JoinElemsAppend(w, a, b);
      JoinElemsWhole(w, Arr(a), a);
      JoinElemsWhole(w, Arr(b), b);
    }
  }

  datatype PageType = WebSite | ItemList | WebPage

  function TypeName(t: PageType): string {
    match t
    case WebSite => "WebSite"
    case ItemList => "ItemList"
    case WebPage => "WebPage"
  }

  /** The page's `data` prop: the properties the builder reads, each
      `undefined` when missing; `items` is `None` when it is missing or
      `null`. */
  datatype PageData = PageData(name: Js, description: Js, url: Js, numberOfItems: Js, items: Option<seq<ListEntry>>)

  /** One entry of `data.items`. */
  datatype ListEntry = ListEntry(name: Js, description: Js, image: Js, url: Js)

  const SchemaContext := "https://schema.org"
  const DefaultSiteName := "ARC Forge"
  const SearchSuffix := "?search={search_term_string}"

  /** The `Product` an entry describes. */
  function Product(entry: ListEntry): (r: Js)
    ensures r.Obj? && |r.props| == 5 && r.props[0] == ("@type", Str("Product"))
  {
    Obj([("@type", Str("Product")), ("name", entry.name), ("description", entry.description),
         ("image", entry.image), ("url", entry.url)])
  }

  /** The `ListItem` for the entry at zero-based `index`. */
  function ListElement(index: nat, entry: ListEntry): Js {
    Obj([("@type", Str("ListItem")), ("position", Num(index + 1)), ("item", Product(entry))])
  }

  /** `items.map((item, index) => ...)`. */
  function ListElements(entries: seq<ListEntry>): (r: seq<Js>)
    ensures |r| == |entries|
    ensures forall i :: 0 <= i < |r| ==>
      r[i].Obj? && |r[i].props| == 3 && r[i].props[0] == ("@type", Str("ListItem")) &&
      r[i].props[1] == ("position", Num(i + 1)) && r[i].props[2] == ("item", Product(entries[i]))
  {
    seq(|entries|, i requires 0 <= i < |entries| => ListElement(i, entries[i]))
  }

  /** The object the `switch` builds for each page type. */
  function Build(t: PageType, data: PageData): (r: Js)
    ensures r.Obj? && |r.props| >= 2
    ensures r.props[0] == ("@context", Str(SchemaContext))
    ensures r.props[1] == ("@type", Str(TypeName(t)))
  {
    var context := ("@context", Str(SchemaContext));
    match t
    case WebSite =>
      Obj([context, ("@type", Str("WebSite")),
           ("name", Or(data.name, Str(DefaultSiteName))),
           ("description", data.description),
           ("url", data.url),
           ("potentialAction", Obj([
              ("@type", Str("SearchAction")),
              ("target", Obj([("@type", Str("EntryPoint")), ("urlTemplate", Str(ToString(data.url) + SearchSuffix))])),
              ("query-input", Str("required name=search_term_string"))]))])
    case ItemList =>
      Obj([context, ("@type", Str("ItemList")),
           ("name", data.name),
           ("description", data.description),
           ("numberOfItems", data.numberOfItems),
           ("itemListElement", match data.items
              case None => Undefined
              case Some(entries) => Arr(ListElements(entries)))])
    case WebPage =>
      Obj([context, ("@type", Str("WebPage")),
           ("name", data.name),
           ("description", data.description),
           ("url", data.url)])
  }

  /** Every object carries the schema.org context and the requested type. */
  lemma ContextAndType(t: PageType, data: PageData)
    ensures Get(Build(t, data), "@context") == Str(SchemaContext)
    ensures Get(Build(t, data), "@type") == Str(TypeName(t))
  {
    var props := Build(t, data).props;
    LookupAt(props, "@context", 0);
    LookupAt(props, "@type", 1);
  }

  /** A website's name falls back to "ARC Forge" when `data.name` is
      falsy. */
  lemma WebSiteName(data: PageData)
    ensures Get(Build(WebSite, data), "name") == if Truthy(data.name) then data.name else Str(DefaultSiteName)
  {
    LookupAt(Build(WebSite, data).props, "name", 2);
  }

  /** A website's search template is `data.url` converted to a string,
      followed by the search placeholder. */
  lemma WebSiteSearchTemplate(data: PageData)
    ensures Get(Get(Get(Build(WebSite, data), "potentialAction"), "target"), "urlTemplate")
      == Str(ToString(data.url) + SearchSuffix)
  {
    var props := Build(WebSite, data).props;
    LookupAt(props, "potentialAction", 5);
    var action := props[5].1;
    LookupAt(action.props, "target", 1);
    var target := action.props[1].1;
    LookupAt(target.props, "urlTemplate", 1);
  }

  /** An item list has one `ListItem` per entry, in order, at positions
      1..n, each describing its entry as a `Product`; without entries the
      list is `undefined`. */
  lemma ItemListElements(data: PageData)
    ensures data.items.None? ==> Get(Build(ItemList, data), "itemListElement") == Undefined
    ensures data.items.Some? ==>
      var list := Get(Build(ItemList, data), "itemListElement");
      list.Arr? && |list.elems| == |data.items.value| &&
      forall i :: 0 <= i < |list.elems| ==>
        Get(list.elems[i], "@type") == Str("ListItem") &&
        Get(list.elems[i], "position") == Num(i + 1) &&
        Get(list.elems[i], "item") == Product(data.items.value[i])
  {
    var props := Build(ItemList, data).props;
    LookupAt(props, "itemListElement", 5);
    if data.items.Some? {
      var elems := ListElements(data.items.value);
      forall i | 0 <= i < |elems|
        ensures Get(elems[i], "@type") == Str("ListItem")
        ensures Get(elems[i], "position") == Num(i + 1)
        ensures Get(elems[i], "item") == Product(data.items.value[i])
      {
        var p := elems[i].props;
        LookupAt(p, "@type", 0);
        LookupAt(p, "position", 1);
        LookupAt(p, "item", 2);
      }
    }
  }

  /** A product copies name, description, image and url from its entry. */
  lemma ProductCopiesEntry(entry: ListEntry)
    ensures Get(Product(entry), "@type") == Str("Product")
    ensures Get(Product(entry), "name") == entry.name
    ensures Get(Product(entry), "description") == entry.description
    ensures Get(Product(entry), "image") == entry.image
    ensures Get(Product(entry), "url") == entry.url
  {
    var p := Product(entry).props;
    LookupAt(p, "@type", 0);
    LookupAt(p, "name", 1);
    LookupAt(p, "description", 2);
    LookupAt(p, "image", 3);
    LookupAt(p, "url", 4);
  }

  /** The id of the script element. */
  function ScriptId(t: PageType): (id: string)
    ensures |id| > |"structured-data-"| && id[..|"structured-data-"|] == "structured-data-"
    ensures id[|"structured-data-"|..] == TypeName(t)
  {
    "structured-data-" + TypeName(t)
  }

  /** Different page types get different script ids. */
  lemma ScriptIdsDistinct(a: PageType, b: PageType)
    requires a != b
    ensures ScriptId(a) != ScriptId(b)
  {
    var n := |"structured-data-"|;
    assert ScriptId(a)[n..] == TypeName(a) && ScriptId(b)[n..] == TypeName(b);
  }
}
