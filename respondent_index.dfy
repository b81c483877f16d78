/** The respondents table of a survey: each respondent's responses turned into a dictionary from
    field name to value, the columns listed from those dictionaries, one cell per respondent and
    field, and the paging arithmetic of the table footer. */
module RespondentIndex {
  import opened Js
  import opened Respondents

  /** One key of a responses dictionary with the value stored under it (null included). */
  datatype Entry = Entry(name: string, value: Option<string>)

  /** A JS object with string keys, its entries in the order `Object.keys` lists them. */
  type Dict = seq<Entry>

  function Keys(d: Dict): (ks: seq<string>)
    ensures |ks| == |d| && forall i :: 0 <= i < |d| ==> ks[i] == d[i].name
  {
    seq(|d|, i requires 0 <= i < |d| => d[i].name)
  }

  predicate Distinct(ks: seq<string>) {
    forall i, j :: 0 <= i < j < |ks| ==> ks[i] != ks[j]
  }

  /** An array index used as a key: the canonical decimal text of an integer below 2^32 - 1. */
  predicate IsIndexKey(name: string) {
    && |name| > 0
    && (forall i :: 0 <= i < |name| ==> IsDigit(name[i]))
    && (name[0] != '0' || |name| == 1)
    && DigitsValue(name) < 0xFFFF_FFFF
  }

  /** Whether an object lists key `a` before key `b`: array indices come first, in ascending
      order, and every other key after them. */
  predicate ListedBefore(a: string, b: string) {
    IsIndexKey(a) && (!IsIndexKey(b) || DigitsValue(a) < DigitsValue(b))
  }

  /** The keys are in the order an object lists them. */
  predicate ObjectOrder(ks: seq<string>) {
    forall i, j :: 0 <= i < j < |ks| ==> !ListedBefore(ks[j], ks[i])
  }

  /** Where a new key goes: before the first key it is listed before, otherwise last. */
  function Slot(ks: seq<string>, name: string): (p: nat)
    ensures p <= |ks|
    ensures forall i :: 0 <= i < p ==> !ListedBefore(name, ks[i])
    ensures p < |ks| ==> ListedBefore(name, ks[p])
    ensures !IsIndexKey(name) ==> p == |ks|
  {
    if ks == [] then 0 else if ListedBefore(name, ks[0]) then 0 else Slot(ks[1..], name) + 1
  }

  /** `d[name]`: the value stored under a key, or nothing when the key is absent. */
  function Get(d: Dict, name: string): Option<Option<string>> {
    if d == [] then None else if d[0].name == name then Some(d[0].value) else Get(d[1..], name)
  }

  /** The value of an existing key replaced in place. */
  function Assign(d: Dict, name: string, value: Option<string>): (r: Dict)
    ensures Keys(r) == Keys(d)
  {
    if d == [] then []
    else if d[0].name == name then [Entry(name, value)] + d[1..]
    else
      var rest := Assign(d[1..], name, value);
      assert Keys(d) == [d[0].name] + Keys(d[1..]);
      assert Keys([d[0]] + rest) == [d[0].name] + Keys(rest);
      [d[0]] + rest
  }

  /** `res[name] = value`: an existing key keeps its place and takes the new value; a new key is
      placed where the object lists it, so an array index goes among the indices by value and any
      other key goes last. */
  function Put(d: Dict, name: string, value: Option<string>): (r: Dict)
    ensures name in Keys(d) ==> Keys(r) == Keys(d)
    ensures name !in Keys(d) ==>
      Keys(r) == Keys(d)[..Slot(Keys(d), name)] + [name] + Keys(d)[Slot(Keys(d), name)..]
    ensures name !in Keys(d) && !IsIndexKey(name) ==> Keys(r) == Keys(d) + [name]
  {
    if name in Keys(d) then Assign(d, name, value)
    else
      var p := Slot(Keys(d), name);
      var r := d[..p] + [Entry(name, value)] + d[p..];
      assert Keys(r) == Keys(d)[..p] + [name] + Keys(d)[p..];
      r
  }

  /** A key is present exactly when a lookup finds it. */
  lemma {:induction false} GetPresent(d: Dict, name: string)
    ensures Get(d, name).Some? <==> name in Keys(d)
  {
    if d != [] {
      GetPresent(d[1..], name);
      assert Keys(d) == [d[0].name] + Keys(d[1..]);
    }
  }

  /** A lookup in two dictionaries laid end to end finds the first one's entry first. */
  lemma {:induction false} GetAppend(a: Dict, b: Dict, name: string)
    ensures Get(a + b, name) == if Get(a, name).Some? then Get(a, name) else Get(b, name)
  {
    if a == [] {
      assert a + b == b;
    } else {
      GetAppend(a[1..], b, name);
      assert (a + b)[1..] == a[1..] + b;
    }
  }

  /** Assigning an existing key changes its value only. */
  lemma {:induction false} AssignGet(d: Dict, name: string, value: Option<string>, other: string)
    requires name in Keys(d)
    ensures Get(Assign(d, name, value), name) == Some(value)
    ensures other != name ==> Get(Assign(d, name, value), other) == Get(d, other)
  {
    if d[0].name != name {
      assert Keys(d) == [d[0].name] + Keys(d[1..]);
      AssignGet(d[1..], name, value, other);
    }
  }

  /** After `res[name] = value` the key holds the value and every other key what it held. */
  lemma PutGet(d: Dict, name: string, value: Option<string>, other: string)
    ensures Get(Put(d, name, value), name) == Some(value)
    ensures other != name ==> Get(Put(d, name, value), other) == Get(d, other)
  {
    if name in Keys(d) {
      AssignGet(d, name, value, other);
    } else {
      var p := Slot(Keys(d), name);
      var e := [Entry(name, value)];
      assert Put(d, name, value) == d[..p] + (e + d[p..]);
      assert d == d[..p] + d[p..];
      assert Keys(d[..p]) == Keys(d)[..p];
      GetPresent(d[..p], name);
      GetAppend(d[..p], e + d[p..], name);
      GetAppend(d[..p], e + d[p..], other);
      GetAppend(e, d[p..], other);
      GetAppend(d[..p], d[p..], other);
    }
  }

  /** Setting a key keeps the keys distinct. */
  lemma PutDistinct(d: Dict, name: string, value: Option<string>)
    requires Distinct(Keys(d))
    ensures Distinct(Keys(Put(d, name, value)))
  {
    if name !in Keys(d) {
      var ks := Keys(d);
      var p := Slot(ks, name);
      var r := Keys(Put(d, name, value));
      forall i, j | 0 <= i < j < |r|
        ensures r[i] != r[j]
      {
        if i < p && j > p {
          assert r[i] == ks[i] && r[j] == ks[j - 1];
        } else if i > p {
          assert r[i] == ks[i - 1] && r[j] == ks[j - 1];
        }
      }
    }
  }

  /** No key from a new key's slot onwards is listed before the new key. */
  lemma SlotPrecedesRest(ks: seq<string>, name: string, j: nat)
    requires ObjectOrder(ks) && Slot(ks, name) <= j < |ks|
    ensures !ListedBefore(ks[j], name)
  {
    var p := Slot(ks, name);
    if j > p {
      assert !ListedBefore(ks[j], ks[p]);
    }
  }

  /** Setting a key keeps the keys in the order an object lists them. */
  lemma PutKeepsOrder(d: Dict, name: string, value: Option<string>)
    requires ObjectOrder(Keys(d))
    ensures ObjectOrder(Keys(Put(d, name, value)))
  {
    if name !in Keys(d) {
      var ks := Keys(d);
      var p := Slot(ks, name);
      var r := Keys(Put(d, name, value));
      assert forall k :: 0 <= k < |r| ==> r[k] == if k < p then ks[k] else if k == p then name else ks[k - 1];
      forall i, j | 0 <= i < j < |r|
        ensures !ListedBefore(r[j], r[i])
      {
        if i == p {
          SlotPrecedesRest(ks, name, j - 1);
        }
      }
    }
  }

  /** The dictionary `responsesDictionaryFrom` builds: every response written in turn. */
  function DictionaryOf(responses: seq<Response>): Dict {
    if responses == [] then []
    else
      var last := responses[|responses| - 1];
      Put(DictionaryOf(responses[..|responses| - 1]), last.name, last.value)
  }

  /** The value of the last response with a given name, if any. */
  function LastValue(responses: seq<Response>, name: string): Option<Option<string>> {
    if responses == [] then None
    else if responses[|responses| - 1].name == name then Some(responses[|responses| - 1].value)
    else LastValue(responses[..|responses| - 1], name)
  }

  /** Each name holds the value of its last response: a later duplicate overwrites an earlier one,
      and a name no response has is absent. */
  lemma {:induction false} DictionaryLookup(responses: seq<Response>, name: string)
    ensures Get(DictionaryOf(responses), name) == LastValue(responses, name)
  {
    if responses != [] {
      var last := responses[|responses| - 1];
      DictionaryLookup(responses[..|responses| - 1], name);
      PutGet(DictionaryOf(responses[..|responses| - 1]), last.name, last.value, name);
    }
  }

  /** A name has a last response exactly when some response has it. */
  lemma {:induction false} LastValueFound(responses: seq<Response>, name: string)
    ensures LastValue(responses, name).Some? <==> exists i :: 0 <= i < |responses| && responses[i].name == name
  {
    if responses != [] {
      var init := responses[..|responses| - 1];
      LastValueFound(init, name);
      if exists i :: 0 <= i < |init| && init[i].name == name {
        var i :| 0 <= i < |init| && init[i].name == name;
        assert responses[i].name == name;
      }
      if exists i :: 0 <= i < |responses| && responses[i].name == name {
        var i :| 0 <= i < |responses| && responses[i].name == name;
        if i < |init| {
          assert init[i].name == name;
        }
      }
    }
  }

  /** The keys of the dictionary are the names of the responses, each once. */
  lemma {:induction false} DictionaryKeys(responses: seq<Response>)
    ensures Distinct(Keys(DictionaryOf(responses)))
    ensures forall name :: name in Keys(DictionaryOf(responses)) <==>
      exists i :: 0 <= i < |responses| && responses[i].name == name
  {
    if responses != [] {
      var last := responses[|responses| - 1];
      DictionaryKeys(responses[..|responses| - 1]);
      PutDistinct(DictionaryOf(responses[..|responses| - 1]), last.name, last.value);
    }
    forall name
      ensures name in Keys(DictionaryOf(responses)) <==> exists i :: 0 <= i < |responses| && responses[i].name == name
    {
      GetPresent(DictionaryOf(responses), name);
      DictionaryLookup(responses, name);
      LastValueFound(responses, name);
    }
  }

  /** The keys of the dictionary are listed as an object lists them. */
  lemma {:induction false} DictionaryOrdered(responses: seq<Response>)
    ensures ObjectOrder(Keys(DictionaryOf(responses)))
  {
    if responses != [] {
      var last := responses[|responses| - 1];
      DictionaryOrdered(responses[..|responses| - 1]);
      PutKeepsOrder(DictionaryOf(responses[..|responses| - 1]), last.name, last.value);
    }
  }

  /** Responses named "q" and then "1" give the columns "1" and then "q": an array index is
      listed before the other keys whenever it was set. */
  lemma IndexKeyListedFirst(v: Option<string>, w: Option<string>)
    ensures Keys(DictionaryOf([Response("q", v), Response("1", w)])) == ["1", "q"]
  {
    var responses := [Response("q", v), Response("1", w)];
    assert responses[..1] == [Response("q", v)];
    assert [Response("q", v)][..0] == [];
    var first := DictionaryOf(responses[..1]);
    assert DictionaryOf(responses[..1][..0]) == [];
    assert first == Put([], "q", v);
    assert "q" !in Keys([]);
    assert first == [Entry("q", v)];
    assert DigitsValue("1") == 1;
    assert IsIndexKey("1") && !IsIndexKey("q");
    assert Slot(Keys(first), "1") == 0;
  }

  /** `responsesDictionaryFrom`: the `for…in` loop writing `res[name] = value` for every response. */
  method ResponsesDictionaryFrom(responses: seq<Response>) returns (res: Dict)
    ensures res == DictionaryOf(responses)
  {
    res := [];
    for i := 0 to |responses|
      invariant res == DictionaryOf(responses[..i])
    {
      assert responses[..i + 1][..i] == responses[..i];
      res := Put(res, responses[i].name, responses[i].value);
    }
    assert responses[..|responses|] == responses;
  }

  /** `generateResponsesDictionaryFor`: every respondent's responses replaced by their dictionary,
      respondent by respondent, in a copy of the respondents. */
  method GenerateResponsesDictionaryFor(rs: map<int, seq<Response>>) returns (out: map<int, Dict>)
    ensures out.Keys == rs.Keys
    ensures forall id :: id in rs ==> out[id] == DictionaryOf(rs[id])
  {
    out := map[];
    var remaining := rs.Keys;
    while remaining != {}
      invariant remaining <= rs.Keys
      invariant out.Keys == rs.Keys - remaining
      invariant forall id :: id in out ==> out[id] == DictionaryOf(rs[id])
      decreases |remaining|
    {
      HasElement(remaining);
      var id :| id in remaining;
      var dict := ResponsesDictionaryFrom(rs[id]);
      out := out[id := dict];
      remaining := remaining - {id};
    }
  }

  /** A set that is not empty has an element. */
  lemma HasElement(ids: set<int>)
    requires ids != {}
    ensures exists k :: k in ids
  {
    if forall k :: k !in ids {
      assert false;
    }
  }

  /** `allFieldNames`: the keys of every dictionary, one respondent after the other, duplicates
      kept. The dictionaries come in the order of the respondents' keys. */
  function AllFieldNames(dicts: seq<Dict>): seq<string> {
    if dicts == [] then [] else AllFieldNames(dicts[..|dicts| - 1]) + Keys(dicts[|dicts| - 1])
  }

  /** The columns hold every field some respondent has, as often as respondents have it. */
  lemma {:induction false} AllFieldNamesCollects(dicts: seq<Dict>, name: string)
    ensures name in AllFieldNames(dicts) <==> exists i :: 0 <= i < |dicts| && name in Keys(dicts[i])
    ensures multiset(AllFieldNames(dicts))[name] == CountIn(dicts, name)
  {
    if dicts != [] {
      var init := dicts[..|dicts| - 1];
      AllFieldNamesCollects(init, name);
      assert multiset(AllFieldNames(dicts)) == multiset(AllFieldNames(init)) + multiset(Keys(dicts[|dicts| - 1]));
      if exists i :: 0 <= i < |init| && name in Keys(init[i]) {
        var i :| 0 <= i < |init| && name in Keys(init[i]);
        assert dicts[i] == init[i];
      }
      if exists i :: 0 <= i < |dicts| && name in Keys(dicts[i]) {
        var i :| 0 <= i < |dicts| && name in Keys(dicts[i]);
        if i < |init| {
          assert dicts[i] == init[i];
        }
      }
    }
  }

  /** How many of the dictionaries have a key, counted with its repetitions. */
  function CountIn(dicts: seq<Dict>, name: string): nat {
    if dicts == [] then 0 else CountIn(dicts[..|dicts| - 1], name) + multiset(Keys(dicts[|dicts| - 1]))[name]
  }

  /** `hasResponded`: the field is one of the keys of the respondent's dictionary; a respondent not
      in the table is a TypeError. */
  function HasResponded(rs: map<int, Dict>, respondentId: int, fieldName: string): (r: Outcome<bool>)
    ensures r.Thrown? <==> respondentId !in rs
  {
    if respondentId !in rs then Thrown("TypeError: Cannot read property 'responses' of undefined")
    else Done(fieldName in Keys(rs[respondentId]))
  }

  /** `responseOf`: the stored value of a field the respondent has (null included), `-` for one it
      has not. */
  function ResponseOf(rs: map<int, Dict>, respondentId: int, fieldName: string): (r: Outcome<Option<string>>)
    ensures r.Thrown? <==> respondentId !in rs
  {
    var responded := HasResponded(rs, respondentId, fieldName);
    if responded.Thrown? then Thrown(responded.message)
    else if responded.value then
      GetPresent(rs[respondentId], fieldName);
      Done(Get(rs[respondentId], fieldName).value)
    else Done(Some("-"))
  }

  /** A cell of the table shows the value of the respondent's last response to the field, and `-`
      when the respondent has none. */
  lemma CellShowsLastResponse(rs: map<int, seq<Response>>, dicts: map<int, Dict>, respondentId: int, fieldName: string)
    requires dicts.Keys == rs.Keys && forall id :: id in rs ==> dicts[id] == DictionaryOf(rs[id])
    requires respondentId in rs
    ensures ResponseOf(dicts, respondentId, fieldName) ==
      Done(if LastValue(rs[respondentId], fieldName).Some? then LastValue(rs[respondentId], fieldName).value else Some("-"))
  {
    DictionaryLookup(rs[respondentId], fieldName);
    GetPresent(dicts[respondentId], fieldName);
  }

  /** The table footer: the first and last row shown, counted from one, and whether there are
      pages before and after. */
  datatype Paging = Paging(startIndex: int, endIndex: int, hasPreviousPage: bool, hasNextPage: bool)

  /** `mapStateToProps`: the indices of the current page of respondents. */
  function PageOf(page: Page): (p: Paging)
    ensures p.hasPreviousPage <==> page.number > 1
    ensures p.endIndex <= page.totalCount
  {
    var startIndex := (page.number - 1) * page.size + 1;
    var endIndex := Min(startIndex + page.size - 1, page.totalCount);
    Paging(startIndex, endIndex, page.number > 1, endIndex < page.totalCount)
  }

  function Min(a: int, b: int): int {
    if a <= b then a else b
  }

  /** On a page of positive size: the rows shown are those of the page, up to the last respondent;
      there is a next page exactly when a respondent comes after the page; a page that is not past
      the end shows a full page or the rest of the respondents. */
  lemma PagingCounts(page: Page)
    requires page.number >= 1 && page.size >= 1
    ensures var p := PageOf(page);
      && p.startIndex == (page.number - 1) * page.size + 1
      && (p.hasNextPage <==> page.number * page.size < page.totalCount)
      && (p.startIndex <= page.totalCount ==>
            p.endIndex - p.startIndex + 1 == Min(page.size, page.totalCount - (page.number - 1) * page.size))
  {
  }
}
