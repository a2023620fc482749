/**
 The fixed status enumeration of the meta tag manager: the emoji table
 (`statusEmojis`), its key order, and the rule the status widget uses to
 pick the next status on a click.
 */
module StatusTable {

  const Online: string := "online"
  const Idle: string := "idle"
  const Dnd: string := "dnd"
  const Offline: string := "offline"

  const OnlineEmoji: string := "\U{1F7E2}"
  const IdleEmoji: string := "\U{23FE}"
  const DndEmoji: string := "\U{1F534}"
  const OfflineEmoji: string := "\U{26AB}"

  /** The emoji table, keyed by its own (not inherited) property names. */
  const Emojis: map<string, string> :=
    map[Online := OnlineEmoji, Idle := IdleEmoji, Dnd := DndEmoji, Offline := OfflineEmoji]

  /** The keys of the emoji table in insertion order, as `Object.keys` lists them. */
  const Order: seq<string> := [Online, Idle, Dnd, Offline]

  predicate IsStatus(s: string) {
    s in Emojis
  }

  /** The emoji shown for a status; an unknown status falls back to the idle emoji. */
  function EmojiFor(s: string): (e: string)
    ensures IsStatus(s) ==> e == Emojis[s]
    ensures !IsStatus(s) ==> e == IdleEmoji
    ensures |e| == 1 && e in Emojis.Values
  {
    if s in Emojis then Emojis[s]
    else assert Emojis[Idle] == IdleEmoji; IdleEmoji
  }

  /** `Array.prototype.indexOf`: the first position holding `x`, or -1. */
  function IndexOf(xs: seq<string>, x: string): (i: int)
    ensures -1 <= i < |xs|
    ensures i == -1 <==> x !in xs
    ensures 0 <= i ==> xs[i] == x && forall j :: 0 <= j < i ==> xs[j] != x
    decreases |xs|
  {
    if |xs| == 0 then -1
    else if xs[0] == x then 0
    else
      var k := IndexOf(xs[1..], x);
      if k == -1 then -1 else k + 1
  }

  /**
   The status the widget switches to on a click: the key after the current one
   in `Order`, wrapping round; an unknown status has index -1 and so moves to
   the first key.
   */
  function NextStatus(s: string): (n: string)
    ensures n in Order
    ensures !IsStatus(s) ==> n == Online
  {
    assert s !in Order <==> !IsStatus(s);
    Order[(IndexOf(Order, s) + 1) % |Order|]
  }

  lemma OrderListsTheTable()
    ensures forall s :: s in Order <==> IsStatus(s)
    ensures forall i, j :: 0 <= i < j < |Order| ==> Order[i] != Order[j]
  {
  }

  /** In a sequence without repeats, `indexOf` finds each element at its own position. */
  lemma IndexOfDistinct(xs: seq<string>, k: int)
    requires 0 <= k < |xs|
    requires forall i, j :: 0 <= i < j < |xs| ==> xs[i] != xs[j]
    ensures IndexOf(xs, xs[k]) == k
  {
    var i := IndexOf(xs, xs[k]);
    assert xs[k] in xs;
    assert xs[i] == xs[k];
  }

  /** The position after `k` in the key order, wrapping round. */
  function Succ(k: int): int {
    if k == |Order| - 1 then 0 else k + 1
  }

  /** The status after the key at position `k` is the key at the following position, wrapping round. */
  lemma NextOfOrder(k: int)
    requires 0 <= k < |Order|
    ensures NextStatus(Order[k]) == Order[Succ(k)]
  {
    OrderListsTheTable();
    IndexOfDistinct(Order, k);
    assert (k + 1) % |Order| == Succ(k);
  }

  /** The four statuses, none of them empty. */
  lemma StatusCases(s: string)
    requires IsStatus(s)
    ensures s == Online || s == Idle || s == Dnd || s == Offline
    ensures s != ""
  {
  }

  /** The widget walks online, idle, dnd, offline and back to online. */
  lemma NextStatusCycle()
    ensures NextStatus(Online) == Idle
    ensures NextStatus(Idle) == Dnd
    ensures NextStatus(Dnd) == Offline
    ensures NextStatus(Offline) == Online
  {
    assert NextStatus(Online) == Idle by { NextOfOrder(0); }
    assert NextStatus(Idle) == Dnd by { NextOfOrder(1); }
    assert NextStatus(Dnd) == Offline by { NextOfOrder(2); }
    assert NextStatus(Offline) == Online by { NextOfOrder(3); }
  }

  /** A valid status sits in the key order at the position `indexOf` reports. */
  lemma StatusPosition(s: string)
    requires IsStatus(s)
    ensures 0 <= IndexOf(Order, s) < |Order| && Order[IndexOf(Order, s)] == s
  {
    OrderListsTheTable();
  }

  /** A click always lands in the enumeration and moves a valid status on; an unknown status goes to online. */
  lemma NextStatusInEnumeration(s: string)
    ensures IsStatus(NextStatus(s))
    ensures !IsStatus(s) ==> NextStatus(s) == Online
    ensures IsStatus(s) ==> NextStatus(s) != s
  {
    OrderListsTheTable();
    if IsStatus(s) {
      var k := IndexOf(Order, s);
      StatusPosition(s);
      NextOfOrder(k);
      assert Order[Succ(k)] in Order;
    } else {
      assert IndexOf(Order, s) == -1;
    }
  }

  /** Every valid status moves on, and comes back after exactly four clicks. */
  lemma FourClicksReturn(s: string)
    requires IsStatus(s)
    ensures NextStatus(s) != s
    ensures NextStatus(NextStatus(s)) != s
    ensures NextStatus(NextStatus(NextStatus(s))) != s
    ensures NextStatus(NextStatus(NextStatus(NextStatus(s)))) == s
  {
    OrderListsTheTable();
    var k := IndexOf(Order, s);
    StatusPosition(s);
    var k1 := Succ(k);
    var k2 := Succ(k1);
    var k3 := Succ(k2);
    NextOfOrder(k);
    NextOfOrder(k1);
    NextOfOrder(k2);
    NextOfOrder(k3);
    assert k1 != k && k2 != k && k3 != k && Succ(k3) == k;
  }

  /** Different valid statuses never move to the same status. */
  lemma NextStatusInjective(s1: string, s2: string)
    requires IsStatus(s1) && IsStatus(s2)
    requires NextStatus(s1) == NextStatus(s2)
    ensures s1 == s2
  {
    OrderListsTheTable();
    StatusPosition(s1);
    StatusPosition(s2);
    var i1 := IndexOf(Order, s1);
    var i2 := IndexOf(Order, s2);
    NextOfOrder(i1);
    NextOfOrder(i2);
    assert Succ(i1) == Succ(i2);
  }

  /** Every valid status is reached by one click from another valid status. */
  lemma NextStatusSurjective(t: string)
    requires IsStatus(t)
    ensures exists s :: IsStatus(s) && NextStatus(s) == t
  {
    OrderListsTheTable();
    var k := IndexOf(Order, t);
    StatusPosition(t);
    var p := if k == 0 then |Order| - 1 else k - 1;
    NextOfOrder(p);
    assert Succ(p) == k;
    assert Order[p] in Order && NextStatus(Order[p]) == t;
  }
}
