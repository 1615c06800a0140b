/** The check-item set: an insertion-ordered mapping from category name to
    its ordered list of check items (a Python dict of lists), the operations
    the sidebar editor performs on it, and the item count it displays. */
module Checklist {

  /** One `(category, items)` pair of `check_items.items()`. */
  datatype Category = Category(name: string, items: seq<string>)

  /** The text a newly added item, or the single item of a new category, starts with. */
  const NewItemText: string := "新しいチェック項目"

  predicate Distinct(ns: seq<string>) {
    forall i, j :: 0 <= i < j < |ns| ==> ns[i] != ns[j]
  }

  /** The names of `ns` other than `name`, in their order. */
  function Erase(ns: seq<string>, name: string): seq<string> {
    if ns == [] then []
    else Erase(ns[..|ns| - 1], name) + (if ns[|ns| - 1] == name then [] else [ns[|ns| - 1]])
  }

  lemma {:induction false} EraseSpec(ns: seq<string>, name: string)
    ensures forall k :: k in Erase(ns, name) <==> k in ns && k != name
    ensures Distinct(ns) ==> Distinct(Erase(ns, name))
    ensures name !in ns ==> Erase(ns, name) == ns
  {
    if ns != [] {
      var init := ns[..|ns| - 1];
      var last := ns[|ns| - 1];
      EraseSpec(init, name);
      assert ns == init + [last];
      if Distinct(ns) {
        assert Distinct(init);
        assert last !in init;
        assert last !in Erase(init, name);
      }
    }
  }

  lemma {:induction false} EraseAppend(a: seq<string>, b: seq<string>, name: string)
    ensures Erase(a + b, name) == Erase(a, name) + Erase(b, name)
    decreases |b|
  {
    if b == [] {
      assert a + b == a;
    } else {
      var b' := b[..|b| - 1];
      assert (a + b)[..|a + b| - 1] == a + b';
      EraseAppend(a, b', name);
    }
  }

  /** `sum(len(items) for items in ...)` over a sequence of categories. */
  function ItemCount(cats: seq<Category>): nat {
    if cats == [] then 0 else ItemCount(cats[..|cats| - 1]) + |cats[|cats| - 1].items|
  }

  lemma {:induction false} ItemCountAppend(a: seq<Category>, b: seq<Category>)
    ensures ItemCount(a + b) == ItemCount(a) + ItemCount(b)
    decreases |b|
  {
    if b == [] {
      assert a + b == a;
    } else {
      var b' := b[..|b| - 1];
      assert (a + b)[..|a + b| - 1] == a + b';
      ItemCountAppend(a, b');
    }
  }

  /** Replacing the category at position `k` changes the total item count by
      the difference in length. */
  lemma {:induction false} ItemCountUpdate(cats: seq<Category>, k: nat, c: Category)
    requires k < |cats|
    ensures ItemCount(cats[k := c]) == ItemCount(cats) - |cats[k].items| + |c.items|
  {
    ItemCountAppend(cats[..k] + [cats[k]], cats[k + 1..]);
    ItemCountAppend(cats[..k], [cats[k]]);
    ItemCountAppend(cats[..k] + [c], cats[k + 1..]);
    ItemCountAppend(cats[..k], [c]);
    assert cats == cats[..k] + [cats[k]] + cats[k + 1..];
    assert cats[k := c] == cats[..k] + [c] + cats[k + 1..];
    assert [c][..0] == [] && [cats[k]][..0] == [];
  }

  /** A Python dict from category name to items: the keys in insertion
      (iteration) order, and the value of each key. */
  datatype CheckItems = CheckItems(order: seq<string>, lists: map<string, seq<string>>) {

    /** Every key occurs once in the order, and the order lists exactly the keys. */
    ghost predicate Wf() {
      && Distinct(order)
      && (forall k :: k in lists <==> k in order)
    }

    /** `check_items.items()`: the pairs in iteration order. */
    function Entries(): seq<Category>
      requires Wf()
    {
      seq(|order|, i requires 0 <= i < |order| => Category(order[i], lists[order[i]]))
    }

    /** `check_items[name] = items`: an existing key keeps its position, a new
        key goes to the end of the iteration order. */
    function Assign(name: string, items: seq<string>): CheckItems {
      CheckItems(if name in lists then order else order + [name], lists[name := items])
    }

    /** `del check_items[name]` (Python raises KeyError for a missing key). */
    function Remove(name: string): CheckItems
      requires name in lists
    {
      CheckItems(Erase(order, name), lists - {name})
    }
  }

  /** Assignment keeps the dict well formed. In iteration order it replaces
      the pair of an existing key where it stands, and appends the pair of a
      new key after all others. */
  lemma AssignSpec(d: CheckItems, name: string, items: seq<string>)
    requires d.Wf()
    ensures d.Assign(name, items).Wf()
    ensures name in d.lists ==>
      && |d.Assign(name, items).Entries()| == |d.Entries()|
      && forall i :: 0 <= i < |d.order| ==>
           d.Assign(name, items).Entries()[i] == if d.order[i] == name then Category(name, items) else d.Entries()[i]
    ensures name !in d.lists ==> d.Assign(name, items).Entries() == d.Entries() + [Category(name, items)]
  {
    var r := d.Assign(name, items);
    if name !in d.lists {
      assert r.Entries() == d.Entries() + [Category(name, items)];
    }
  }

  /** Assigning to an existing key changes the total item count by the
      difference in length. */
  lemma AssignItemCount(d: CheckItems, name: string, items: seq<string>)
    requires d.Wf() && name in d.lists
    ensures ItemCount(d.Assign(name, items).Entries()) == ItemCount(d.Entries()) - |d.lists[name]| + |items|
  {
    AssignSpec(d, name, items);
    var k :| 0 <= k < |d.order| && d.order[k] == name;
    assert d.Assign(name, items).Entries() == d.Entries()[k := Category(name, items)];
    ItemCountUpdate(d.Entries(), k, Category(name, items));
  }

  /** Deletion keeps the dict well formed and removes exactly the key. */
  lemma RemoveSpec(d: CheckItems, name: string)
    requires d.Wf() && name in d.lists
    ensures d.Remove(name).Wf()
    ensures forall k :: k in d.Remove(name).lists <==> k in d.lists && k != name
  {
    EraseSpec(d.order, name);
  }

  /** Deleting the key at position `k` closes the gap in iteration order. */
  lemma RemoveOrder(d: CheckItems, name: string, k: nat)
    requires d.Wf() && k < |d.order| && d.order[k] == name
    ensures d.Remove(name).order == d.order[..k] + d.order[k + 1..]
  {
    var o := d.order;
    var before, after := o[..k], o[k + 1..];
    assert o == before + [name] + after;
    assert name !in before by {
      forall i | 0 <= i < |before| ensures before[i] != name {
        assert before[i] == o[i];
      }
    }
    assert name !in after by {
      forall i | 0 <= i < |after| ensures after[i] != name {
        assert after[i] == o[k + 1 + i];
      }
    }
    EraseAround(before, name, after);
  }

  lemma EraseAround(before: seq<string>, name: string, after: seq<string>)
    requires name !in before && name !in after
    ensures Erase(before + [name] + after, name) == before + after
  {
    EraseAbsent(before, name);
    EraseAbsent(after, name);
    assert Erase([name], name) == [] by {
      assert [name][..0] == [];
    }
    var middle := before + [name];
    EraseAppend(before, [name], name);
    assert Erase(middle, name) == before;
    EraseAppend(middle, after, name);
  }

  lemma {:induction false} EraseAbsent(ns: seq<string>, name: string)
    requires name !in ns
    ensures Erase(ns, name) == ns
  {
    if ns != [] {
      EraseAbsent(ns[..|ns| - 1], name);
    }
  }

  lemma {:induction false} ItemCountRemoveAt(e: seq<Category>, k: nat)
    requires k < |e|
    ensures ItemCount(e[..k] + e[k + 1..]) == ItemCount(e) - |e[k].items|
  {
    assert e == e[..k] + [e[k]] + e[k + 1..];
    ItemCountAppend(e[..k] + [e[k]], e[k + 1..]);
    ItemCountAppend(e[..k], [e[k]]);
    ItemCountAppend(e[..k], e[k + 1..]);
    assert [e[k]][..0] == [];
  }

  /** Deleting the key at position `k` removes its pair from `items()`. */
  lemma RemoveEntries(d: CheckItems, name: string, k: nat)
    requires d.Wf() && k < |d.order| && d.order[k] == name
    ensures d.Remove(name).Wf()
    ensures d.Remove(name).Entries() == d.Entries()[..k] + d.Entries()[k + 1..]
  {
    RemoveSpec(d, name);
    RemoveOrder(d, name, k);
    var r := d.Remove(name).Entries();
    var e := d.Entries();
    assert |r| == |e| - 1;
    forall i | 0 <= i < |r| ensures r[i] == (e[..k] + e[k + 1..])[i] {
      if i < k {
        assert r[i] == e[i];
      } else {
        assert r[i] == e[i + 1];
      }
    }
  }

  /** Deleting a key drops its pair from iteration order and its items from the total. */
  lemma RemoveItemCount(d: CheckItems, name: string)
    requires d.Wf() && name in d.lists
    ensures d.Remove(name).Wf()
    ensures ItemCount(d.Remove(name).Entries()) == ItemCount(d.Entries()) - |d.lists[name]|
  {
    var k :| 0 <= k < |d.order| && d.order[k] == name;
    RemoveEntries(d, name, k);
    ItemCountRemoveAt(d.Entries(), k);
  }

  /** Renaming a category to a name not yet in use (assign under the new key,
      then delete the old key) keeps its items but moves it to the end of the
      iteration order, so the prompt renders it last and gives it the
      remainder points. */
  lemma RenameMovesToEnd(d: CheckItems, from: string, to: string, items: seq<string>)
    requires d.Wf() && from in d.lists && to !in d.lists
    ensures to in d.Assign(to, items).lists
    ensures d.Assign(to, items).Remove(from).order == Erase(d.order, from) + [to]
    ensures d.Assign(to, items).Remove(from).lists[to] == items
    ensures from !in d.Assign(to, items).Remove(from).lists
    ensures var r := d.Assign(to, items).Remove(from);
      r.Wf() && |r.Entries()| > 0 && r.Entries()[|r.Entries()| - 1] == Category(to, items)
  {
    EraseAppend(d.order, [to], from);
    assert [to][..0] == [];
    AssignSpec(d, to, items);
    RemoveSpec(d.Assign(to, items), from);
  }

  /** Renaming a category onto the name of another existing category
      overwrites that category's items: they are lost from the checklist. */
  lemma RenameOntoExistingDropsItems(d: CheckItems, from: string, to: string, items: seq<string>)
    requires d.Wf() && from in d.lists && to in d.lists && from != to
    ensures d.Assign(to, items).Remove(from).order == Erase(d.order, from)
    ensures d.Assign(to, items).Remove(from).Wf()
    ensures ItemCount(d.Assign(to, items).Remove(from).Entries())
         == ItemCount(d.Entries()) - |d.lists[from]| - |d.lists[to]| + |items|
  {
    AssignSpec(d, to, items);
    AssignItemCount(d, to, items);
    var a := d.Assign(to, items);
    RemoveSpec(a, from);
    RemoveItemCount(a, from);
  }

  /** The built-in checklist, in its insertion order. */
  const DefaultCheckItems: CheckItems := CheckItems(
    ["基本情報", "内容・目的", "予算・コスト", "スケジュール", "文書品質"],
    map[
      "基本情報" := [
        "件名が明確で具体的か",
        "申請者・部署が明記されているか",
        "申請日が記載されているか",
        "承認者が適切に設定されているか"],
      "内容・目的" := [
        "申請の目的が明確に記載されているか",
        "背景・理由が十分に説明されているか",
        "期待される効果・メリットが記載されているか",
        "リスクや課題が検討されているか"],
      "予算・コスト" := [
        "予算額が明確に記載されているか",
        "費用の内訳が詳細に記載されているか",
        "予算根拠が合理的か",
        "ROI（投資対効果）が検討されているか"],
      "スケジュール" := [
        "実施スケジュールが明確か",
        "各フェーズの期限が設定されているか",
        "リソース配分が適切か",
        "遅延リスクが考慮されているか"],
      "文書品質" := [
        "誤字脱字がないか",
        "文章が分かりやすいか",
        "論理的な構成になっているか",
        "必要な添付資料があるか"]
    ])

  /** The built-in checklist is a well-formed dict of five categories of four items each. */
  lemma {:induction false} DefaultCheckItemsShape()
    ensures DefaultCheckItems.Wf()
    ensures |DefaultCheckItems.Entries()| == 5
    ensures ItemCount(DefaultCheckItems.Entries()) == 20
  {
    var e := DefaultCheckItems.Entries();
    assert forall i :: 0 <= i < 5 ==> |e[i].items| == 4;
    UniformItemCount(e, 4);
  }

  /** Categories of `width` items each hold `width` items per category. */
  lemma {:induction false} UniformItemCount(cats: seq<Category>, width: nat)
    requires forall i :: 0 <= i < |cats| ==> |cats[i].items| == width
    ensures ItemCount(cats) == width * |cats|
  {
    if cats != [] {
      UniformItemCount(cats[..|cats| - 1], width);
    }
  }

  /** The indices of the items whose delete button was pressed: collected by
      `enumerate`, so strictly increasing and in range. */
  predicate IncreasingIndices(marked: seq<nat>, length: nat) {
    && (forall k :: 0 <= k < |marked| ==> marked[k] < length)
    && (forall k, l :: 0 <= k < l < |marked| ==> marked[k] < marked[l])
  }

  /** Reference definition: the items among the first `n` whose index is not in `drop`, in order. */
  function KeepUpTo(items: seq<string>, drop: set<nat>, n: nat): seq<string>
    requires n <= |items|
  {
    if n == 0 then [] else KeepUpTo(items, drop, n - 1) + (if n - 1 in drop then [] else [items[n - 1]])
  }

  function Kept(items: seq<string>, drop: set<nat>): seq<string> {
    KeepUpTo(items, drop, |items|)
  }

  lemma {:induction false} KeepUpToNoDrop(items: seq<string>, drop: set<nat>, n: nat)
    requires n <= |items| && forall d :: d in drop ==> d >= n
    ensures KeepUpTo(items, drop, n) == items[..n]
  {
    if n > 0 {
      KeepUpToNoDrop(items, drop, n - 1);
      assert items[..n] == items[..n - 1] + [items[n - 1]];
    }
  }

  /** Dropping one more index `m`, below every index already dropped, removes
      the item at position `m` of what was kept. */
  lemma {:induction false} KeepUpToDropOneMore(items: seq<string>, drop: set<nat>, m: nat, n: nat)
    requires m < n <= |items| && forall d :: d in drop ==> d > m
    ensures |KeepUpTo(items, drop + {m}, n)| >= m
    ensures KeepUpTo(items, drop, n)
         == KeepUpTo(items, drop + {m}, n)[..m] + [items[m]] + KeepUpTo(items, drop + {m}, n)[m..]
  {
    var d' := drop + {m};
    if n == m + 1 {
      KeepUpToNoDrop(items, drop, n);
      KeepUpToNoDrop(items, d', m);
      assert KeepUpTo(items, d', n) == items[..m];
      assert items[..n] == items[..m] + [items[m]];
    } else {
      KeepUpToDropOneMore(items, drop, m, n - 1);
      var l := KeepUpTo(items, d', n - 1);
      var e := if n - 1 in drop then [] else [items[n - 1]];
      assert (n - 1 in d') == (n - 1 in drop);
      assert KeepUpTo(items, d', n) == l + e;
      assert (l + e)[..m] == l[..m];
      assert (l + e)[m..] == l[m..] + e;
    }
  }

  /** Lines 368-369: `for i in sorted(items_to_delete, reverse=True): items.pop(i)`.
      Popping from the highest index down removes exactly the marked items and
      keeps the others in order. */
  method DeleteItemsAt(items: seq<string>, marked: seq<nat>) returns (kept: seq<string>)
    requires IncreasingIndices(marked, |items|)
    ensures kept == Kept(items, set k | 0 <= k < |marked| :: marked[k])
    ensures |kept| == |items| - |marked|
  {
    kept := items;
    var k := |marked|;
    ghost var dropped: set<nat> := {};
    KeepUpToNoDrop(items, {}, |items|);
    assert items[..|items|] == items;
    while k > 0
      invariant 0 <= k <= |marked|
      invariant dropped == set l | k <= l < |marked| :: marked[l]
      invariant kept == Kept(items, dropped)
      invariant |kept| == |items| - (|marked| - k)
    {
      k := k - 1;
      var m := marked[k];
      DeleteStep(items, marked, k, dropped);
      kept := kept[..m] + kept[m + 1..];
      dropped := dropped + {m};
    }
  }

  /** One pop of the loop at lines 368-369: every index popped so far is
      above `marked[k]`, so popping it removes the item at that position of
      what is left. */
  lemma DeleteStep(items: seq<string>, marked: seq<nat>, k: nat, dropped: set<nat>)
    requires IncreasingIndices(marked, |items|) && k < |marked|
    requires dropped == set l | k + 1 <= l < |marked| :: marked[l]
    ensures var m := marked[k];
      var kept := Kept(items, dropped);
      && m < |kept|
      && kept[..m] + kept[m + 1..] == Kept(items, dropped + {m})
      && dropped + {m} == set l | k <= l < |marked| :: marked[l]
  {
    var m := marked[k];
    assert forall d :: d in dropped ==> d > m;
    KeepUpToDropOneMore(items, dropped, m, |items|);
  }

  /** Lines 351-373: the items of one category after the editor has run: the
      edited texts, minus the deleted ones, plus a new item if requested. */
  function EditedItems(texts: seq<string>, marked: seq<nat>, addItem: bool): seq<string> {
    Kept(texts, set k | 0 <= k < |marked| :: marked[k]) + (if addItem then [NewItemText] else [])
  }

  /** The dict left after deleting, in turn, each listed name that is still a key. */
  function RemoveAll(d: CheckItems, names: seq<string>): CheckItems
    decreases |names|
  {
    if names == [] then d
    else RemoveAll(if names[0] in d.lists then d.Remove(names[0]) else d, names[1..])
  }

  /** After the deferred deletions the dict is well formed and a key survives
      exactly when it was not listed, with its items unchanged. */
  lemma {:induction false} RemoveAllSpec(d: CheckItems, names: seq<string>)
    requires d.Wf()
    ensures RemoveAll(d, names).Wf()
    ensures RemoveAll(d, names).lists == d.lists - set n | n in names
    decreases |names|
  {
    if names != [] {
      var next := if names[0] in d.lists then d.Remove(names[0]) else d;
      if names[0] in d.lists {
        RemoveSpec(d, names[0]);
      }
      RemoveAllSpec(next, names[1..]);
      assert (set n | n in names) == {names[0]} + (set n | n in names[1..]);
    }
  }

  /** The session's check-item set, edited in place by the sidebar. */
  class CheckItemSet {
    var dict: CheckItems

    ghost predicate Valid()
      reads this
    {
      dict.Wf()
    }

    /** Lines 77-81: the session starts from a copy of the built-in checklist. */
    constructor FromDefaults()
      ensures Valid() && dict == DefaultCheckItems
    {
      DefaultCheckItemsShape();
      dict := DefaultCheckItems;
    }

    /** Lines 421-422: reset to the built-in checklist. */
    method ResetToDefaults()
      modifies this
      ensures Valid() && dict == DefaultCheckItems
    {
      DefaultCheckItemsShape();
      dict := DefaultCheckItems;
    }

    /** Lines 351-384 for one category: apply the item texts, pop the deleted
        items, append a new item if requested, and store the items under the
        (possibly new) category name. Returns the names to delete afterwards:
        the category itself if its delete button was pressed, and again if it
        was renamed. */
    method EditCategory(category: string, newName: string, texts: seq<string>, marked: seq<nat>,
                        addItem: bool, deleteCategory: bool)
      returns (retired: seq<string>)
      requires Valid() && category in dict.lists
      requires |texts| == |dict.lists[category]|
      requires IncreasingIndices(marked, |texts|)
      modifies this
      ensures Valid()
      ensures dict == old(dict).Assign(newName, EditedItems(texts, marked, addItem))
      ensures retired == (if deleteCategory then [category] else []) + (if newName != category then [category] else [])
    {
      var items := texts;
      items := DeleteItemsAt(items, marked);
      if addItem {
        items := items + [NewItemText];
      } else {
        assert items == items + [];
      }
      retired := [];
      if deleteCategory {
        retired := retired + [category];
      }
      AssignSpec(dict, newName, items);
      if newName != category {
        dict := dict.Assign(newName, items);
        retired := retired + [category];
      } else {
        dict := dict.Assign(category, items);
      }
    }

    /** Lines 387-389: delete each retired name that is still a key. */
    method DeleteRetired(retired: seq<string>)
      requires Valid()
      modifies this
      ensures Valid()
      ensures dict == RemoveAll(old(dict), retired)
      ensures dict.lists == old(dict).lists - set n | n in retired
    {
      RemoveAllSpec(dict, retired);
      var i := 0;
      while i < |retired|
        invariant 0 <= i <= |retired|
        invariant Valid()
        invariant RemoveAll(dict, retired[i..]) == RemoveAll(old(dict), retired)
      {
        assert retired[i..][1..] == retired[i + 1..];
        if retired[i] in dict.lists {
          RemoveSpec(dict, retired[i]);
          dict := dict.Remove(retired[i]);
        }
        i := i + 1;
      }
      assert retired[i..] == [];
    }

    /** Lines 397-399: add a category holding one new item, only when the name
        is non-empty and not yet a key. */
    method AddCategory(name: string) returns (added: bool)
      requires Valid()
      modifies this
      ensures Valid()
      ensures added <==> name != "" && name !in old(dict).lists
      ensures dict.Entries() == old(dict).Entries() + (if added then [Category(name, [NewItemText])] else [])
    {
      added := false;
      if name != "" {
        if name !in dict.lists {
          AssignSpec(dict, name, [NewItemText]);
          dict := dict.Assign(name, [NewItemText]);
          added := true;
        }
      }
    }

    /** Line 437: the total number of check items over all categories. */
    method CountItems() returns (total: nat)
      requires Valid()
      ensures total == ItemCount(dict.Entries())
    {
      var entries := dict.Entries();
      total := 0;
      for i := 0 to |entries|
        invariant total == ItemCount(entries[..i])
      {
        assert entries[..i + 1][..i] == entries[..i];
        total := total + |entries[i].items|;
      }
      assert entries[..|entries|] == entries;
    }
  }
}
