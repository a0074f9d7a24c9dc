/**
 * AXImGui's system debug menu: a trie of menu items keyed by path segment.
 * RegisterSystemDebugMenuItem splits a path on '/' and walks the trie one
 * level per segment, reusing the child with the segment's text or creating
 * it, and sets the callback on the node of the last segment only.
 */
module DebugMenu {
  import opened Options
  import Utils

  /** A std::function, identified by an opaque value; None is an empty one. */
  type Callback = Option<nat>

  /** SystemDebugMenuItem: its text, its callback and its children by text. */
  datatype MenuItem = MenuItem(text: string, callback: Callback, children: map<string, MenuItem>)

  /** SystemDebugMenuItem::Collection */
  type Collection = map<string, MenuItem>

  /** The item a freshly created node starts as: the segment's text, no callback, no children. */
  function NewItem(text: string): (r: MenuItem)
    ensures r.text == text && r.callback == None && r.children == map[]
  {
    MenuItem(text, None, map[])
  }

  /**
   * The insertion the loop performs, for the remaining segments segs below
   * the collection c: the first segment's child is reused when present and
   * created otherwise; the loop descends into it; after the last segment
   * that node receives the callback. No segments leave c unchanged.
   */
  function Insert(c: Collection, segs: seq<string>, cb: Callback): (r: Collection)
    ensures segs == [] ==> r == c
    decreases |segs|
  {
    if segs == [] then c
    else
      var s := segs[0];
      var item := if s in c then c[s] else NewItem(s);
      if |segs| == 1 then c[s := item.(callback := cb)]
      else c[s := item.(children := Insert(item.children, segs[1..], cb))]
  }

  /** The node reached by following the path p from c, if every step exists. */
  function Lookup(c: Collection, p: seq<string>): (r: Option<MenuItem>)
    ensures p == [] ==> r.None?
    ensures |p| == 1 ==> (r.Some? <==> p[0] in c)
    decreases |p|
  {
    if p == [] || p[0] !in c then None
    else if |p| == 1 then Some(c[p[0]])
    else Lookup(c[p[0]].children, p[1..])
  }

  /** Every item's text is the key it is stored under, at every depth. */
  predicate KeyedItem(it: MenuItem)
    decreases it
  {
    forall k :: k in it.children ==> it.children[k].text == k && KeyedItem(it.children[k])
  }

  predicate Keyed(c: Collection)
  {
    KeyedItem(MenuItem("", None, c))
  }

  /**
   * After an insertion the full path exists, its node holds the callback,
   * and it keeps the text and children it had; a node the insertion created
   * has the segment's text and no children.
   */
  lemma {:induction false} InsertReachesPath(c: Collection, segs: seq<string>, cb: Callback)
    requires segs != []
    ensures var r := Lookup(Insert(c, segs, cb), segs);
      && r.Some? && r.value.callback == cb
      && (Lookup(c, segs).Some? ==>
            r.value.text == Lookup(c, segs).value.text && r.value.children == Lookup(c, segs).value.children)
      && (Lookup(c, segs).None? ==> r.value.text == segs[|segs| - 1] && r.value.children == map[])
    decreases |segs|
  {
    var s := segs[0];
    if |segs| > 1 {
      var item := if s in c then c[s] else NewItem(s);
      InsertReachesPath(item.children, segs[1..], cb);
      assert segs[1..][|segs[1..]| - 1] == segs[|segs| - 1];
      if s !in c {
        assert Lookup(c, segs) == None;
        assert Lookup(item.children, segs[1..]) == None;
      }
    }
  }

  /**
   * Every proper prefix of the path exists after the insertion; a prefix
   * node the insertion created has the segment's text and no callback, and
   * a prefix node that existed keeps its text and callback.
   */
  lemma {:induction false} InsertCreatesPrefixes(c: Collection, segs: seq<string>, cb: Callback, n: nat)
    requires 1 <= n < |segs|
    ensures var r := Lookup(Insert(c, segs, cb), segs[..n]);
      && r.Some?
      && (Lookup(c, segs[..n]).Some? ==>
            r.value.text == Lookup(c, segs[..n]).value.text && r.value.callback == Lookup(c, segs[..n]).value.callback)
      && (Lookup(c, segs[..n]).None? ==> r.value.text == segs[n - 1] && r.value.callback == None)
    decreases |segs|
  {
    var s := segs[0];
    var item := if s in c then c[s] else NewItem(s);
    var r := Insert(c, segs, cb);
    assert r[s] == item.(children := Insert(item.children, segs[1..], cb));
    if n == 1 {
      assert segs[..1] == [s];
    } else {
      InsertCreatesPrefixes(item.children, segs[1..], cb, n - 1);
      assert segs[..n][1..] == segs[1..][..n - 1];
      assert segs[..n][0] == s;
      assert segs[1..][..n - 1][n - 2] == segs[n - 1];
      if s !in c {
        assert Lookup(c, segs[..n]) == None;
        assert Lookup(item.children, segs[1..][..n - 1]) == None;
      }
    }
  }

  /**
   * Nothing is removed: every node that existed still exists with its text;
   * only the node of the whole path may have its callback changed.
   */
  lemma {:induction false} InsertKeepsOthers(c: Collection, segs: seq<string>, cb: Callback, t: seq<string>)
    requires Lookup(c, t).Some?
    ensures var r := Lookup(Insert(c, segs, cb), t);
      && r.Some? && r.value.text == Lookup(c, t).value.text
      && (t != segs ==> r.value.callback == Lookup(c, t).value.callback)
    decreases |segs|
  {
    if segs != [] && t[0] == segs[0] && |t| > 1 && |segs| > 1 {
      var s := segs[0];
      InsertKeepsOthers(c[s].children, segs[1..], cb, t[1..]);
    } else if segs != [] && |t| == 1 && t[0] == segs[0] && |segs| > 1 {
      assert t != segs;
    } else if segs != [] && |t| == 1 && t[0] == segs[0] {
    } else if segs != [] && t[0] != segs[0] {
    }
  }

  /**
   * Registering the same path again keeps the tree shape and only replaces
   * the callback: it is as if only the second registration had happened.
   */
  lemma {:induction false} InsertTwice(c: Collection, segs: seq<string>, a: Callback, b: Callback)
    ensures Insert(Insert(c, segs, a), segs, b) == Insert(c, segs, b)
    decreases |segs|
  {
    if segs != [] {
      var s := segs[0];
      var item := if s in c then c[s] else NewItem(s);
      var c1 := Insert(c, segs, a);
      if |segs| == 1 {
        assert c1 == c[s := item.(callback := a)];
        assert c1[s].(callback := b) == item.(callback := b);
        assert c1[s := item.(callback := b)] == c[s := item.(callback := b)];
      } else {
        var tail := segs[1..];
        assert c1 == c[s := item.(children := Insert(item.children, tail, a))];
        InsertTwice(item.children, tail, a, b);
        assert c1[s].(children := Insert(c1[s].children, tail, b)) == item.(children := Insert(item.children, tail, b));
        assert c1[s := item.(children := Insert(item.children, tail, b))] == c[s := item.(children := Insert(item.children, tail, b))];
      }
    }
  }

  /** Insertion keeps every item's text equal to its key. */
  lemma {:induction false} InsertKeepsKeyed(c: Collection, segs: seq<string>, cb: Callback)
    requires Keyed(c)
    ensures Keyed(Insert(c, segs, cb))
    decreases |segs|
  {
    if segs != [] {
      var s := segs[0];
      var item := if s in c then c[s] else NewItem(s);
      assert KeyedItem(item) && item.text == s;
      if |segs| > 1 {
        assert Keyed(item.children) by {
          assert forall k :: k in item.children ==> item.children[k].text == k && KeyedItem(item.children[k]);
        }
        InsertKeepsKeyed(item.children, segs[1..], cb);
        var item' := item.(children := Insert(item.children, segs[1..], cb));
        assert KeyedItem(item') by {
          assert KeyedItem(MenuItem("", None, item'.children));
        }
      }
    }
  }

  /** The part of AXImGui that holds the system menu. */
  class ImGuiMenu {
    /** mSystemMenuItems */
    var systemMenuItems: Collection

    constructor ()
      ensures systemMenuItems == map[]
    {
      systemMenuItems := map[];
    }

    /**
     * RegisterSystemDebugMenuItem: the path's segments, as SplitString
     * yields them, are inserted below the top-level collection.
     */
    method RegisterSystemDebugMenuItem(path: string, callback: Callback)
      modifies this
      ensures systemMenuItems == Insert(old(systemMenuItems), Utils.Split(path, '/'), callback)
      ensures path == [] ==> systemMenuItems == old(systemMenuItems)
    {
      var splitStrings := Utils.SplitString(path, '/', []);
      assert splitStrings == Utils.Split(path, '/');
      systemMenuItems := Insert(systemMenuItems, splitStrings, callback);
    }
  }
}
