/** The text extraction of JSONDataLoader: a depth-first walk over a JSON
    value that collects the string leaves found under chosen keys. */
module JsonLoader {
  import opened Common

  /** A JSON value as `json.load` returns it; an object keeps its members
      in the order `dict.items()` yields them. */
  datatype Json =
    | JNull
    | JBool(b: bool)
    | JNumber(n: int)
    | JString(s: string)
    | JArray(items: seq<Json>)
    | JObject(members: seq<Member>)

  datatype Member = Member(key: string, value: Json)

  /** The fields looked at when the caller names none. */
  const DefaultTextFields: seq<string> := ["content", "text", "description", "body", "article", "story"]

  /** `text_fields`, with `None` replaced by the default list. */
  function TextFields(textFields: Option<seq<string>>): (fields: seq<string>)
    ensures textFields.None? ==> fields == DefaultTextFields
    ensures textFields.Some? ==> fields == textFields.value
  {
    if textFields.None? then DefaultTextFields else textFields.value
  }

  // ---------------------------------------------------------------------
  // The walk, as functions (each loop is a fold from the back, so that a
  // loop that has handled `xs[..i]` holds the fold of `xs[..i]`)

  /** `_extract_from_dict(data, fields)`. */
  function FromDict(members: seq<Member>, fields: seq<string>): seq<string>
  {
    if members == [] then []
    else FromDict(members[..|members| - 1], fields) + FromMember(members[|members| - 1], fields)
  }

  /** What one turn of the loop over `data.items()` adds. */
  function FromMember(m: Member, fields: seq<string>): seq<string>
  {
    if m.key in fields && m.value.JString? then [m.value.s]
    else if m.value.JObject? then FromDict(m.value.members, fields)
    else if m.value.JArray? then FromList(m.value.items, m.key in fields, fields)
    else []
  }

  /** The inner loop over a list value; `keep` says whether its key is a
      text field. */
  function FromList(items: seq<Json>, keep: bool, fields: seq<string>): seq<string>
  {
    if items == [] then []
    else FromList(items[..|items| - 1], keep, fields) + FromListItem(items[|items| - 1], keep, fields)
  }

  function FromListItem(item: Json, keep: bool, fields: seq<string>): seq<string>
  {
    if item.JObject? then FromDict(item.members, fields)
    else if item.JString? && keep then [item.s]
    else []
  }

  /** The loop over a top-level list. */
  function FromTopList(items: seq<Json>, fields: seq<string>): seq<string>
  {
    if items == [] then []
    else FromTopList(items[..|items| - 1], fields) + FromTopItem(items[|items| - 1], fields)
  }

  function FromTopItem(item: Json, fields: seq<string>): seq<string>
  {
    if item.JObject? then FromDict(item.members, fields)
    else if item.JString? then [item.s]
    else []
  }

  /** `extract_text_from_json(data, fields)` for a resolved field list. */
  function ExtractText(data: Json, fields: seq<string>): seq<string>
  {
    match data
    case JObject(members) => FromDict(members, fields)
    case JArray(items) => FromTopList(items, fields)
    case _ => []
  }

  lemma DictSnoc(members: seq<Member>, i: nat, fields: seq<string>)
    requires i < |members|
    ensures FromDict(members[..i + 1], fields) == FromDict(members[..i], fields) + FromMember(members[i], fields)
  {
    assert members[..i + 1][..i] == members[..i];
  }

  lemma ListSnoc(items: seq<Json>, i: nat, keep: bool, fields: seq<string>)
    requires i < |items|
    ensures FromList(items[..i + 1], keep, fields) == FromList(items[..i], keep, fields) + FromListItem(items[i], keep, fields)
  {
    assert items[..i + 1][..i] == items[..i];
  }

  lemma TopListSnoc(items: seq<Json>, i: nat, fields: seq<string>)
    requires i < |items|
    ensures FromTopList(items[..i + 1], fields) == FromTopList(items[..i], fields) + FromTopItem(items[i], fields)
  {
    assert items[..i + 1][..i] == items[..i];
  }

  // ---------------------------------------------------------------------
  // The source's loops

  /** JSONDataLoader.extract_text_from_json. */
  method ExtractTextFromJson(data: Json, textFields: Option<seq<string>>) returns (documents: seq<string>)
    ensures documents == ExtractText(data, TextFields(textFields))
  {
    var fields := if textFields.None? then DefaultTextFields else textFields.value;
    documents := [];
    if data.JObject? {
      var found := ExtractFromDict(data.members, fields);
      documents := documents + found;
    } else if data.JArray? {
      var items := data.items;
      for i := 0 to |items|
        invariant documents == FromTopList(items[..i], fields)
      {
        TopListSnoc(items, i, fields);
        var item := items[i];
        if item.JObject? {
          var found := ExtractFromDict(item.members, fields);
          documents := documents + found;
        } else if item.JString? {
          documents := documents + [item.s];
        }
      }
      assert items[..|items|] == items;
    }
  }

  /** JSONDataLoader._extract_from_dict. */
  method ExtractFromDict(data: seq<Member>, textFields: seq<string>) returns (documents: seq<string>)
    ensures documents == FromDict(data, textFields)
    decreases data
  {
    documents := [];
    for i := 0 to |data|
      invariant documents == FromDict(data[..i], textFields)
    {
      ghost var done := documents;
      var key, value := data[i].key, data[i].value;
      if key in textFields && value.JString? {
        documents := documents + [value.s];
      } else if value.JObject? {
        var found := ExtractFromDict(value.members, textFields);
        documents := documents + found;
      } else if value.JArray? {
        var found := ExtractFromList(value.items, key in textFields, textFields);
        documents := documents + found;
      }
      assert documents == done + FromMember(data[i], textFields);
      DictSnoc(data, i, textFields);
    }
    assert data[..|data|] == data;
  }

  /** The inner loop of `_extract_from_dict` over a list value; `keep`
      says whether the list's key is a text field. */
  method ExtractFromList(items: seq<Json>, keep: bool, textFields: seq<string>) returns (documents: seq<string>)
    ensures documents == FromList(items, keep, textFields)
    decreases items
  {
    documents := [];
    for k := 0 to |items|
      invariant documents == FromList(items[..k], keep, textFields)
    {
      ListSnoc(items, k, keep, textFields);
      var item := items[k];
      if item.JObject? {
        var found := ExtractFromDict(item.members, textFields);
        documents := documents + found;
      } else if item.JString? && keep {
        documents := documents + [item.s];
      }
    }
    assert items[..|items|] == items;
  }

  // ---------------------------------------------------------------------
  // An independent description: the string leaves of a value with their
  // paths, and a rule on paths saying which leaves are extracted

  /** One step down a JSON value: into the member with a key, or into the
      element at an index. */
  datatype Step = Key(name: string) | Index(i: nat)

  /** A string leaf and the path leading to it. */
  datatype Leaf = Leaf(path: seq<Step>, text: string)

  /** The leaves of `ls` with `pre` put in front of their paths. */
  function Under(pre: seq<Step>, ls: seq<Leaf>): (r: seq<Leaf>)
    ensures |r| == |ls|
    ensures forall i :: 0 <= i < |ls| ==> r[i] == Leaf(pre + ls[i].path, ls[i].text)
  {
    seq(|ls|, i requires 0 <= i < |ls| => Leaf(pre + ls[i].path, ls[i].text))
  }

  /** Every string leaf of `v`, depth first, members and elements in order,
      with its path from `v`. */
  function Leaves(v: Json): seq<Leaf>
  {
    match v
    case JString(s) => [Leaf([], s)]
    case JArray(items) => ElementLeaves(items)
    case JObject(members) => MemberLeaves(members)
    case _ => []
  }

  function MemberLeaves(members: seq<Member>): (r: seq<Leaf>)
    ensures forall l :: l in r ==> l.path != [] && l.path[0].Key?
  {
    if members == [] then []
    else
      var m := members[|members| - 1];
      MemberLeaves(members[..|members| - 1]) + Under([Key(m.key)], Leaves(m.value))
  }

  function ElementLeaves(items: seq<Json>): (r: seq<Leaf>)
    ensures forall l :: l in r ==> l.path != [] && l.path[0].Index?
  {
    if items == [] then []
    else ElementLeaves(items[..|items| - 1]) + Under([Index(|items| - 1)], Leaves(items[|items| - 1]))
  }

  /** No list directly inside a list along the path. */
  predicate NoNestedIndex(p: seq<Step>)
  {
    forall i :: 0 < i < |p| ==> !(p[i - 1].Index? && p[i].Index?)
  }

  /** The extraction rule on paths from the top-level value: a leaf is taken
      when no list along its path sits directly in a list, and it is either
      the value of a text field, an element of a list under a text field, or
      an element of the top-level list itself. */
  predicate Selected(p: seq<Step>, fields: seq<string>)
  {
    && p != []
    && NoNestedIndex(p)
    && match p[|p| - 1]
       case Key(k) => k in fields
       case Index(_) => |p| == 1 || (p[|p| - 2].Key? && p[|p| - 2].name in fields)
  }

  /** The texts of the selected leaves of `ls`, in order. */
  function Picked(ls: seq<Leaf>, fields: seq<string>): seq<string>
  {
    if ls == [] then []
    else Picked(ls[..|ls| - 1], fields) + (if Selected(ls[|ls| - 1].path, fields) then [ls[|ls| - 1].text] else [])
  }

  lemma {:induction false} PickedConcat(a: seq<Leaf>, b: seq<Leaf>, fields: seq<string>)
    ensures Picked(a + b, fields) == Picked(a, fields) + Picked(b, fields)
    decreases |b|
  {
    if b == [] {
      assert a + b == a;
    } else {
      var b' := b[..|b| - 1];
      assert (a + b)[..|a + b| - 1] == a + b';
      PickedConcat(a, b', fields);
    }
  }

  lemma UnderOne(pre: seq<Step>, s: string)
    ensures Under(pre, [Leaf([], s)]) == [Leaf(pre, s)]
  {
    assert pre + [] == pre;
  }

  lemma UnderConcat(pre: seq<Step>, a: seq<Leaf>, b: seq<Leaf>)
    ensures Under(pre, a + b) == Under(pre, a) + Under(pre, b)
  {
  }

  lemma UnderUnder(p: seq<Step>, q: seq<Step>, ls: seq<Leaf>)
    ensures Under(p, Under(q, ls)) == Under(p + q, ls)
  {
    forall i | 0 <= i < |ls| ensures Under(p, Under(q, ls))[i] == Under(p + q, ls)[i] {
      assert p + (q + ls[i].path) == (p + q) + ls[i].path;
    }
  }

  /** Putting a path without nested lists in front of paths that start with
      a key changes nothing about which leaves are selected. */
  lemma {:induction false} PickedUnderKeyed(pre: seq<Step>, ls: seq<Leaf>, fields: seq<string>)
    requires NoNestedIndex(pre)
    requires forall l :: l in ls ==> l.path != [] && l.path[0].Key?
    ensures Picked(Under(pre, ls), fields) == Picked(ls, fields)
    decreases |ls|
  {
    if ls != [] {
      var init := ls[..|ls| - 1];
      var l := ls[|ls| - 1];
      assert l in ls;
      assert forall x :: x in init ==> x in ls;
      PickedUnderKeyed(pre, init, fields);
      assert Under(pre, ls)[..|ls| - 1] == Under(pre, init);
      SelectedUnderKeyed(pre, l.path, fields);
    }
  }

  lemma SelectedUnderKeyed(pre: seq<Step>, q: seq<Step>, fields: seq<string>)
    requires NoNestedIndex(pre) && q != [] && q[0].Key?
    ensures Selected(pre + q, fields) == Selected(q, fields)
  {
    var p := pre + q;
    assert p[|p| - 1] == q[|q| - 1];
    if |q| >= 2 {
      assert p[|p| - 2] == q[|q| - 2];
    }
    assert NoNestedIndex(p) == NoNestedIndex(q) by {
      if NoNestedIndex(q) {
        forall i | 0 < i < |p| ensures !(p[i - 1].Index? && p[i].Index?) {
          if i > |pre| {
            assert p[i - 1] == q[i - 1 - |pre|] && p[i] == q[i - |pre|];
          } else if i == |pre| {
            assert p[i] == q[0];
          }
        }
      }
      if NoNestedIndex(p) {
        forall i | 0 < i < |q| ensures !(q[i - 1].Index? && q[i].Index?) {
          assert q[i - 1] == p[i - 1 + |pre|] && q[i] == p[i + |pre|];
        }
      }
    }
  }

  /** Below an element, a list's own elements are never selected. */
  lemma {:induction false} PickedUnderNested(pre: seq<Step>, ls: seq<Leaf>, fields: seq<string>)
    requires pre != [] && pre[|pre| - 1].Index?
    requires forall l :: l in ls ==> l.path != [] && l.path[0].Index?
    ensures Picked(Under(pre, ls), fields) == []
    decreases |ls|
  {
    if ls != [] {
      var init := ls[..|ls| - 1];
      var l := ls[|ls| - 1];
      assert l in ls;
      assert forall x :: x in init ==> x in ls;
      PickedUnderNested(pre, init, fields);
      assert Under(pre, ls)[..|ls| - 1] == Under(pre, init);
      var p := pre + l.path;
      assert p[|pre| - 1].Index? && p[|pre|].Index?;
    }
  }

  /** `_extract_from_dict` returns exactly the selected leaves of the
      object, in order. */
  lemma {:induction false} DictPicks(members: seq<Member>, fields: seq<string>)
    ensures FromDict(members, fields) == Picked(MemberLeaves(members), fields)
    decreases members
  {
    if members != [] {
      var init := members[..|members| - 1];
      var m := members[|members| - 1];
      DictPicks(init, fields);
      MemberPicks(m, fields);
      PickedConcat(MemberLeaves(init), Under([Key(m.key)], Leaves(m.value)), fields);
    }
  }

  lemma {:induction false} MemberPicks(m: Member, fields: seq<string>)
    ensures FromMember(m, fields) == Picked(Under([Key(m.key)], Leaves(m.value)), fields)
    decreases m
  {
    var pre := [Key(m.key)];
    match m.value
    case JString(s) =>
      UnderOne(pre, s);
      assert Picked([Leaf(pre, s)], fields) == Picked([], fields) + (if Selected(pre, fields) then [s] else []);
    case JObject(ms) =>
      DictPicks(ms, fields);
      PickedUnderKeyed(pre, MemberLeaves(ms), fields);
    case JArray(items) =>
      ListPicks(items, m.key, fields);
    case _ =>
  }

  lemma {:induction false} ListPicks(items: seq<Json>, key: string, fields: seq<string>)
    ensures FromList(items, key in fields, fields) == Picked(Under([Key(key)], ElementLeaves(items)), fields)
    decreases items
  {
    if items != [] {
      var init := items[..|items| - 1];
      var item := items[|items| - 1];
      var here := Under([Index(|items| - 1)], Leaves(item));
      ListPicks(init, key, fields);
      ListItemPicks(item, |items| - 1, key, fields);
      UnderConcat([Key(key)], ElementLeaves(init), here);
      UnderUnder([Key(key)], [Index(|items| - 1)], Leaves(item));
      assert [Key(key)] + [Index(|items| - 1)] == [Key(key), Index(|items| - 1)];
      PickedConcat(Under([Key(key)], ElementLeaves(init)), Under([Key(key)], here), fields);
    }
  }

  lemma {:induction false} ListItemPicks(item: Json, i: nat, key: string, fields: seq<string>)
    ensures FromListItem(item, key in fields, fields) == Picked(Under([Key(key), Index(i)], Leaves(item)), fields)
    decreases item
  {
    var pre := [Key(key), Index(i)];
    match item
    case JString(s) =>
      UnderOne(pre, s);
      assert NoNestedIndex(pre);
      assert Picked([Leaf(pre, s)], fields) == Picked([], fields) + (if Selected(pre, fields) then [s] else []);
    case JObject(ms) =>
      DictPicks(ms, fields);
      assert NoNestedIndex(pre);
      PickedUnderKeyed(pre, MemberLeaves(ms), fields);
    case JArray(elements) =>
      PickedUnderNested(pre, ElementLeaves(elements), fields);
    case _ =>
  }

  lemma {:induction false} TopListPicks(items: seq<Json>, fields: seq<string>)
    ensures FromTopList(items, fields) == Picked(ElementLeaves(items), fields)
    decreases items
  {
    if items != [] {
      var init := items[..|items| - 1];
      var item := items[|items| - 1];
      TopListPicks(init, fields);
      TopItemPicks(item, |items| - 1, fields);
      PickedConcat(ElementLeaves(init), Under([Index(|items| - 1)], Leaves(item)), fields);
    }
  }

  lemma TopItemPicks(item: Json, i: nat, fields: seq<string>)
    ensures FromTopItem(item, fields) == Picked(Under([Index(i)], Leaves(item)), fields)
  {
    var pre := [Index(i)];
    match item
    case JString(s) =>
      UnderOne(pre, s);
      assert Picked([Leaf(pre, s)], fields) == Picked([], fields) + (if Selected(pre, fields) then [s] else []);
    case JObject(ms) =>
      DictPicks(ms, fields);
      PickedUnderKeyed(pre, MemberLeaves(ms), fields);
    case JArray(elements) =>
      PickedUnderNested(pre, ElementLeaves(elements), fields);
    case _ =>
  }

  /** extract_text_from_json returns the texts of exactly the selected
      string leaves, in document order, one entry per leaf. */
  lemma ExtractPicksSelectedLeaves(data: Json, fields: seq<string>)
    ensures ExtractText(data, fields) == Picked(Leaves(data), fields)
  {
    match data
    case JObject(ms) => DictPicks(ms, fields);
    case JArray(items) => TopListPicks(items, fields);
    case JString(s) =>
      assert Picked([Leaf([], s)], fields) == Picked([], fields) + [];
    case _ =>
  }

  /** A text is picked exactly when some selected leaf carries it. */
  lemma {:induction false} PickedMembers(ls: seq<Leaf>, fields: seq<string>)
    ensures forall t :: t in Picked(ls, fields) <==> exists l :: l in ls && Selected(l.path, fields) && l.text == t
    decreases |ls|
  {
    if ls != [] {
      var init := ls[..|ls| - 1];
      var last := ls[|ls| - 1];
      PickedMembers(init, fields);
      assert ls == init + [last];
      assert forall l :: l in ls <==> l in init || l == last;
    }
  }

  /** Every extracted text is the text of a selected leaf, and the text of
      every selected leaf is extracted. */
  lemma ExtractedAreSelectedLeaves(data: Json, fields: seq<string>)
    ensures forall t :: t in ExtractText(data, fields) <==>
              exists l :: l in Leaves(data) && Selected(l.path, fields) && l.text == t
  {
    ExtractPicksSelectedLeaves(data, fields);
    PickedMembers(Leaves(data), fields);
  }

  /** With no text field, nothing below a key is selected. */
  lemma {:induction false} PickedNoFieldsKeyed(ls: seq<Leaf>)
    requires forall l :: l in ls ==> l.path != [] && l.path[0].Key?
    ensures Picked(ls, []) == []
    decreases |ls|
  {
    if ls != [] {
      var last := ls[|ls| - 1];
      assert last in ls;
      assert forall x :: x in ls[..|ls| - 1] ==> x in ls;
      PickedNoFieldsKeyed(ls[..|ls| - 1]);
      assert !Selected(last.path, []);
    }
  }

  /** An object with an empty field list yields nothing. */
  lemma ObjectWithoutFields(members: seq<Member>)
    ensures ExtractText(JObject(members), []) == []
  {
    DictPicks(members, []);
    PickedNoFieldsKeyed(MemberLeaves(members));
  }

  /** The strings that are elements of `items` themselves, in order. */
  function DirectStrings(items: seq<Json>): seq<string>
  {
    if items == [] then []
    else DirectStrings(items[..|items| - 1]) + (if items[|items| - 1].JString? then [items[|items| - 1].s] else [])
  }

  /** A top-level list with an empty field list yields exactly its own
      string elements. */
  lemma {:induction false} TopListWithoutFields(items: seq<Json>)
    ensures ExtractText(JArray(items), []) == DirectStrings(items)
    decreases |items|
  {
    if items != [] {
      var item := items[|items| - 1];
      TopListWithoutFields(items[..|items| - 1]);
      if item.JObject? {
        ObjectWithoutFields(item.members);
      }
    }
  }
}
