/**
 The DDI index of src/task_controller.cpp: which element each data description index is addressed
 to, and which measurement commands a first pass over the pool sends.
 */
module MeasurementIndex {
  import opened DeviceDescriptor

  /** What the server puts on the bus for one client. */
  datatype Message =
    | SetValue(ddi: nat, element: nat, value: nat)
    | SubscribeOnChange(ddi: nat, element: nat, threshold: nat)
    | SubscribeInterval(ddi: nat, element: nat, periodMs: nat)

  /** One occurrence of a process data object in the child list of a device element. */
  datatype Link = Link(data: PoolObject, element: nat)

  predicate IsActualDdi(ddi: nat) {
    || ddi == ACTUAL_WORK_STATE
    || ACTUAL_CONDENSED_FIRST <= ddi <= ACTUAL_CONDENSED_LAST
    || OVERRIDE_CONDENSED_FIRST <= ddi <= OVERRIDE_CONDENSED_LAST
  }

  predicate IsControlDdi(ddi: nat) {
    || ddi == SECTION_CONTROL_STATE
    || ddi == SETPOINT_WORK_STATE
    || SETPOINT_CONDENSED_FIRST <= ddi <= SETPOINT_CONDENSED_LAST
  }

  /** The two subscription passes select disjoint sets of DDIs; `actual` tells which pass. */
  predicate Selected(o: PoolObject, actual: bool) {
    o.ProcessData? && if actual then IsActualDdi(o.ddi) else IsControlDdi(o.ddi)
  }

  /** Occurrences of `data` among the first `n` children of one element. */
  function ChildLinks(data: PoolObject, number: nat, children: seq<nat>, n: nat): seq<Link>
    requires n <= |children| && data.ProcessData?
  {
    if n == 0 then []
    else ChildLinks(data, number, children, n - 1) + if children[n - 1] == data.id then [Link(data, number)] else []
  }

  /** Occurrences of `data` in the child lists of the elements among the first `n` objects. */
  function OwnerLinks(pool: Pool, data: PoolObject, n: nat): seq<Link>
    requires n <= |pool| && data.ProcessData?
  {
    if n == 0 then []
    else
      var o := pool[n - 1];
      OwnerLinks(pool, data, n - 1) + if o.Element? then ChildLinks(data, o.number, o.children, |o.children|) else []
  }

  /** All occurrences of the first `n` objects that the pass selects, in pool order. */
  function Links(pool: Pool, actual: bool, n: nat): seq<Link>
    requires n <= |pool|
  {
    if n == 0 then []
    else
      Links(pool, actual, n - 1) +
      if Selected(pool[n - 1], actual) then OwnerLinks(pool, pool[n - 1], |pool|) else []
  }

  /** The commands sent for one occurrence. Only the first pass asks for a time interval. */
  function Commands(link: Link, actual: bool): seq<Message>
    requires link.data.ProcessData?
  {
    (if link.data.onChange then [SubscribeOnChange(link.data.ddi, link.element, 1)] else []) +
    (if actual && link.data.timeInterval then [SubscribeInterval(link.data.ddi, link.element, 1000)] else [])
  }

  ghost predicate AllData(links: seq<Link>) {
    forall i :: 0 <= i < |links| ==> links[i].data.ProcessData?
  }

  function AllCommands(links: seq<Link>, actual: bool): seq<Message>
    requires AllData(links)
  {
    if links == [] then []
    else AllCommands(links[..|links| - 1], actual) + Commands(links[|links| - 1], actual)
  }

  /** The index after registering the occurrences in order. */
  function Index(ddiElement: map<nat, nat>, links: seq<Link>): map<nat, nat>
    requires AllData(links)
  {
    if links == [] then ddiElement
    else
      var link := links[|links| - 1];
      Index(ddiElement, links[..|links| - 1])[link.data.ddi := link.element]
  }

  /** The element that owns `id`: the first in the pool whose child list names it. */
  function FirstOwner(pool: Pool, id: nat): Option<nat> {
    if pool == [] then None
    else if pool[0].Element? && id in pool[0].children then Some(pool[0].number)
    else FirstOwner(pool[1..], id)
  }

  predicate SendsGnss(o: PoolObject) {
    o.ProcessData? && o.ddi == GNSS_QUALITY && o.settable
  }

  /** The owner registered for GNSS quality after the first `n` objects. */
  function GnssOwner(pool: Pool, n: nat): Option<nat>
    requires n <= |pool|
  {
    if n == 0 then None
    else if SendsGnss(pool[n - 1]) && FirstOwner(pool, pool[n - 1].id).Some? then FirstOwner(pool, pool[n - 1].id)
    else GnssOwner(pool, n - 1)
  }

  /** The whole index that the first pass builds. */
  function BuiltIndex(ddiElement: map<nat, nat>, pool: Pool): map<nat, nat> {
    LinksAreData(pool, true, |pool|);
    LinksAreData(pool, false, |pool|);
    var actual := Index(ddiElement, Links(pool, true, |pool|));
    var control := Index(actual, Links(pool, false, |pool|));
    var gnss := GnssOwner(pool, |pool|);
    if gnss.Some? then control[GNSS_QUALITY := gnss.value] else control
  }

  /** Everything the first pass sends. */
  function BuiltCommands(pool: Pool): seq<Message> {
    LinksAreData(pool, true, |pool|);
    LinksAreData(pool, false, |pool|);
    AllCommands(Links(pool, true, |pool|), true) + AllCommands(Links(pool, false, |pool|), false)
  }

  // ---------------------------------------------------------------------------------------------
  // What the links are
  // ---------------------------------------------------------------------------------------------

  lemma {:induction false} OwnerLinksAreData(pool: Pool, data: PoolObject, n: nat)
    requires n <= |pool| && data.ProcessData?
    ensures forall l :: l in OwnerLinks(pool, data, n) ==> l.data == data
  {
    if n != 0 {
      OwnerLinksAreData(pool, data, n - 1);
      if pool[n - 1].Element? {
        ChildLinksAreData(data, pool[n - 1].number, pool[n - 1].children, |pool[n - 1].children|);
      }
    }
  }

  lemma {:induction false} ChildLinksAreData(data: PoolObject, number: nat, children: seq<nat>, n: nat)
    requires n <= |children| && data.ProcessData?
    ensures forall l :: l in ChildLinks(data, number, children, n) ==> l == Link(data, number)
  {
    if n != 0 {
      ChildLinksAreData(data, number, children, n - 1);
    }
  }

  lemma {:induction false} LinksAreData(pool: Pool, actual: bool, n: nat)
    requires n <= |pool|
    ensures AllData(Links(pool, actual, n))
    ensures forall l :: l in Links(pool, actual, n) ==> Selected(l.data, actual)
  {
    if n != 0 {
      LinksAreData(pool, actual, n - 1);
      if Selected(pool[n - 1], actual) {
        OwnerLinksAreData(pool, pool[n - 1], |pool|);
      }
      forall l | l in Links(pool, actual, n) ensures Selected(l.data, actual) {
        assert l in Links(pool, actual, n - 1) || Selected(pool[n - 1], actual);
      }
    }
  }

  /** How often `data` is named by the child lists of the first `n` objects that are the element `number`. */
  function Mentions(pool: Pool, id: nat, number: nat, n: nat): nat
    requires n <= |pool|
  {
    if n == 0 then 0
    else Mentions(pool, id, number, n - 1) +
         if pool[n - 1].Element? && pool[n - 1].number == number then multiset(pool[n - 1].children)[id] else 0
  }

  lemma CountOfConcat<T>(a: seq<T>, b: seq<T>, x: T)
    ensures multiset(a + b)[x] == multiset(a)[x] + multiset(b)[x]
  {
    assert multiset(a + b) == multiset(a) + multiset(b);
  }

  lemma CountOfOne<T>(x: T, y: T)
    ensures multiset([x])[y] == if x == y then 1 else 0
  {
  }

  lemma CountUpTo<T>(s: seq<T>, n: nat, x: T)
    requires 0 < n <= |s|
    ensures multiset(s[..n])[x] == multiset(s[..n - 1])[x] + if s[n - 1] == x then 1 else 0
  {
    assert s[..n] == s[..n - 1] + [s[n - 1]];
    CountOfConcat(s[..n - 1], [s[n - 1]], x);
  }

  lemma {:induction false} ChildLinksCount(data: PoolObject, number: nat, children: seq<nat>, n: nat, link: Link)
    requires n <= |children| && data.ProcessData?
    ensures multiset(ChildLinks(data, number, children, n))[link] ==
            if link == Link(data, number) then multiset(children[..n])[data.id] else 0
  {
    hide ChildLinks;
    if n != 0 {
      ChildLinksCount(data, number, children, n - 1, link);
      CountUpTo(children, n, data.id);
      var before := ChildLinks(data, number, children, n - 1);
      ChildLinksNext(data, number, children, n);
      if children[n - 1] == data.id {
        CountOfConcat(before, [Link(data, number)], link);
        CountOfOne(Link(data, number), link);
      }
    } else {
      NoChildLinks(data, number, children);
    }
  }

  lemma NoChildLinks(data: PoolObject, number: nat, children: seq<nat>)
    requires data.ProcessData?
    ensures ChildLinks(data, number, children, 0) == []
  {
  }

  lemma ChildLinksNext(data: PoolObject, number: nat, children: seq<nat>, n: nat)
    requires 0 < n <= |children| && data.ProcessData?
    ensures ChildLinks(data, number, children, n) ==
            if children[n - 1] == data.id then ChildLinks(data, number, children, n - 1) + [Link(data, number)]
            else ChildLinks(data, number, children, n - 1)
  {
  }

  /** A process data object occurs once per mention in a child list. */
  lemma {:induction false} OwnerLinksCount(pool: Pool, data: PoolObject, n: nat, link: Link)
    requires n <= |pool| && data.ProcessData?
    ensures multiset(OwnerLinks(pool, data, n))[link] ==
            if link.data == data then Mentions(pool, data.id, link.element, n) else 0
  {
    if n != 0 {
      OwnerLinksCount(pool, data, n - 1, link);
      var o := pool[n - 1];
      if o.Element? {
        ChildLinksCount(data, o.number, o.children, |o.children|, link);
        assert o.children[..|o.children|] == o.children;
      }
    }
  }

  lemma SelectedIsData(o: PoolObject, actual: bool)
    requires Selected(o, actual)
    ensures o.ProcessData?
  {
  }

  /** What the object at index `n - 1` adds to the number of occurrences. */
  lemma LinksOfObject(pool: Pool, actual: bool, n: nat, link: Link)
    requires 0 < n <= |pool|
    ensures multiset(Links(pool, actual, n))[link] == multiset(Links(pool, actual, n - 1))[link] +
            if link.data == pool[n - 1] && Selected(link.data, actual)
            then Mentions(pool, link.data.id, link.element, |pool|) else 0
  {
    hide OwnerLinks, Mentions, Selected;
    var before, o := Links(pool, actual, n - 1), pool[n - 1];
    if Selected(o, actual) {
      SelectedIsData(o, actual);
      OwnerLinksCount(pool, o, |pool|, link);
      CountOfConcat(before, OwnerLinks(pool, o, |pool|), link);
    } else {
      assert before + [] == before;
    }
  }

  lemma OneMore(copies: nat, mentions: nat)
    ensures (copies + 1) * mentions == copies * mentions + mentions
  {
  }

  /** An object is visited once per mention for each of its copies in the pool. */
  lemma {:induction false} LinksCount(pool: Pool, actual: bool, n: nat, link: Link)
    requires n <= |pool|
    ensures multiset(Links(pool, actual, n))[link] ==
            if Selected(link.data, actual)
            then multiset(pool[..n])[link.data] * Mentions(pool, link.data.id, link.element, |pool|) else 0
  {
    hide Links, Mentions, Selected;
    if n == 0 {
      NoLinks(pool, actual);
    } else {
      LinksCount(pool, actual, n - 1, link);
      LinksOfObject(pool, actual, n, link);
      CountUpTo(pool, n, link.data);
      if Selected(link.data, actual) {
        SelectedIsData(link.data, actual);
        OneMore(multiset(pool[..n - 1])[link.data], Mentions(pool, link.data.id, link.element, |pool|));
      }
    }
  }

  lemma NoLinks(pool: Pool, actual: bool)
    ensures Links(pool, actual, 0) == []
  {
  }

  /** How many occurrences subscribe this DDI at this element, on change or (second pass aside) by time interval. */
  function Subscribing(links: seq<Link>, ddi: nat, element: nat, onChange: bool): nat
    requires AllData(links)
  {
    if links == [] then 0
    else
      var link := links[|links| - 1];
      Subscribing(links[..|links| - 1], ddi, element, onChange) +
      if link.data.ddi == ddi && link.element == element
          && (if onChange then link.data.onChange else link.data.timeInterval) then 1 else 0
  }

  /** Each occurrence sends each of its subscriptions once; time intervals are asked for in the first pass only. */
  lemma {:induction false} OneCommandPerOccurrence(links: seq<Link>, actual: bool, ddi: nat, element: nat)
    requires AllData(links)
    ensures multiset(AllCommands(links, actual))[SubscribeOnChange(ddi, element, 1)] ==
            Subscribing(links, ddi, element, true)
    ensures multiset(AllCommands(links, actual))[SubscribeInterval(ddi, element, 1000)] ==
            if actual then Subscribing(links, ddi, element, false) else 0
    ensures forall m :: m in AllCommands(links, actual) ==>
              m == SubscribeOnChange(m.ddi, m.element, 1) || m == SubscribeInterval(m.ddi, m.element, 1000)
  {
    hide Commands;
    if links != [] {
      var before, link := links[..|links| - 1], links[|links| - 1];
      OneCommandPerOccurrence(before, actual, ddi, element);
      CommandsOfLink(link, actual, ddi, element);
      var sent, more := AllCommands(before, actual), Commands(link, actual);
      assert AllCommands(links, actual) == sent + more;
      assert multiset(sent + more) == multiset(sent) + multiset(more);
    }
  }

  lemma CommandsOfLink(link: Link, actual: bool, ddi: nat, element: nat)
    requires link.data.ProcessData?
    ensures var here := link.data.ddi == ddi && link.element == element;
            && multiset(Commands(link, actual))[SubscribeOnChange(ddi, element, 1)] ==
                (if here && link.data.onChange then 1 else 0)
            && multiset(Commands(link, actual))[SubscribeInterval(ddi, element, 1000)] ==
               (if here && actual && link.data.timeInterval then 1 else 0)
    ensures forall m :: m in Commands(link, actual) ==>
              m == SubscribeOnChange(m.ddi, m.element, 1) || m == SubscribeInterval(m.ddi, m.element, 1000)
  {
    var asksChange, asksInterval := SubscribeOnChange(ddi, element, 1), SubscribeInterval(ddi, element, 1000);
    var change := if link.data.onChange then [SubscribeOnChange(link.data.ddi, link.element, 1)] else [];
    var interval := if actual && link.data.timeInterval
                    then [SubscribeInterval(link.data.ddi, link.element, 1000)] else [];
    CountOfConcat(change, interval, asksChange);
    CountOfConcat(change, interval, asksInterval);
  }

  lemma {:induction false} CommandsConcat(a: seq<Link>, b: seq<Link>, actual: bool)
    requires AllData(a) && AllData(b)
    ensures AllData(a + b) && AllCommands(a + b, actual) == AllCommands(a, actual) + AllCommands(b, actual)
  {
    hide Commands;
    if b == [] {
      assert a + b == a;
    } else {
      var before, more := b[..|b| - 1], Commands(b[|b| - 1], actual);
      assert (a + b)[..|a + b| - 1] == a + before;
      CommandsConcat(a, before, actual);
      assert AllCommands(a, actual) + AllCommands(before, actual) + more ==
             AllCommands(a, actual) + (AllCommands(before, actual) + more);
    }
  }

  /** Commands go out visit by visit, for each visit the subscription on change before the time interval. */
  lemma CommandsAreInOrder(a: seq<Link>, b: seq<Link>, link: Link, actual: bool)
    requires AllData(a) && AllData(b) && link.data.ProcessData?
    ensures AllData(a + b) && AllCommands(a + b, actual) == AllCommands(a, actual) + AllCommands(b, actual)
    ensures AllCommands([link], actual) ==
            (if link.data.onChange then [SubscribeOnChange(link.data.ddi, link.element, 1)] else [])
            + (if actual && link.data.timeInterval then [SubscribeInterval(link.data.ddi, link.element, 1000)] else [])
  {
    CommandsConcat(a, b, actual);
    assert [link][..0] == [];
    assert AllCommands([link], actual) == [] + Commands(link, actual) == Commands(link, actual);
  }

  lemma {:induction false} SubscribingConcat(a: seq<Link>, b: seq<Link>, ddi: nat, element: nat, onChange: bool)
    requires AllData(a) && AllData(b)
    ensures AllData(a + b)
    ensures Subscribing(a + b, ddi, element, onChange) ==
            Subscribing(a, ddi, element, onChange) + Subscribing(b, ddi, element, onChange)
  {
    if b == [] {
      assert a + b == a;
    } else {
      SubscribingConcat(a, b[..|b| - 1], ddi, element, onChange);
      assert (a + b)[..|a + b| - 1] == a + b[..|b| - 1];
    }
  }

  /** The object asks for reports of this DDI, on change or by time interval. */
  predicate Asks(o: PoolObject, ddi: nat, onChange: bool) {
    o.ProcessData? && o.ddi == ddi && if onChange then o.onChange else o.timeInterval
  }

  lemma SubscribingNone(ddi: nat, element: nat, onChange: bool)
    ensures AllData([]) && Subscribing([], ddi, element, onChange) == 0
  {
  }

  lemma SubscribingOne(link: Link, ddi: nat, element: nat, onChange: bool)
    requires link.data.ProcessData?
    ensures AllData([link])
    ensures Subscribing([link], ddi, element, onChange) ==
            if Asks(link.data, ddi, onChange) && link.element == element then 1 else 0
  {
    assert [link][..0] == [];
  }

  lemma {:induction false} SubscribingChildren(data: PoolObject, number: nat, children: seq<nat>, n: nat,
                                               ddi: nat, element: nat, onChange: bool)
    requires n <= |children| && data.ProcessData?
    ensures AllData(ChildLinks(data, number, children, n))
    ensures Subscribing(ChildLinks(data, number, children, n), ddi, element, onChange) ==
            if Asks(data, ddi, onChange) && number == element then multiset(children[..n])[data.id] else 0
  {
    hide Subscribing, Asks, AllData;
    if n == 0 {
      SubscribingNone(ddi, element, onChange);
    } else {
      var before, link := ChildLinks(data, number, children, n - 1), Link(data, number);
      SubscribingChildren(data, number, children, n - 1, ddi, element, onChange);
      CountUpTo(children, n, data.id);
      if children[n - 1] == data.id {
        SubscribingOne(link, ddi, element, onChange);
        SubscribingConcat(before, [link], ddi, element, onChange);
      } else {
        assert before + [] == before;
      }
    }
  }

  lemma {:induction false} SubscribingOwners(pool: Pool, data: PoolObject, n: nat, ddi: nat, element: nat,
          onChange: bool)
    requires n <= |pool| && data.ProcessData?
    ensures AllData(OwnerLinks(pool, data, n))
    ensures Subscribing(OwnerLinks(pool, data, n), ddi, element, onChange) ==
            if Asks(data, ddi, onChange) then Mentions(pool, data.id, element, n) else 0
  {
    hide Subscribing, Asks, ChildLinks, AllData;
    if n == 0 {
      SubscribingNone(ddi, element, onChange);
    } else {
      SubscribingOwners(pool, data, n - 1, ddi, element, onChange);
      var o, before := pool[n - 1], OwnerLinks(pool, data, n - 1);
      if o.Element? {
        SubscribingChildren(data, o.number, o.children, |o.children|, ddi, element, onChange);
        assert o.children[..|o.children|] == o.children;
        SubscribingConcat(before, ChildLinks(data, o.number, o.children, |o.children|), ddi, element, onChange);
      } else {
        assert before + [] == before;
      }
    }
  }

  /** The mentions at `element`, over all objects among the first `n` that ask for reports of this DDI. */
  function AskingMentions(pool: Pool, ddi: nat, element: nat, onChange: bool, n: nat): nat
    requires n <= |pool|
  {
    if n == 0 then 0
    else
      AskingMentions(pool, ddi, element, onChange, n - 1) +
      if Asks(pool[n - 1], ddi, onChange) then Mentions(pool, pool[n - 1].id, element, |pool|) else 0
  }

  lemma {:induction false} SubscribingLinks(pool: Pool, actual: bool, n: nat, ddi: nat, element: nat, onChange: bool)
    requires n <= |pool|
    ensures AllData(Links(pool, actual, n))
    ensures Subscribing(Links(pool, actual, n), ddi, element, onChange) ==
            if (if actual then IsActualDdi(ddi) else IsControlDdi(ddi))
            then AskingMentions(pool, ddi, element, onChange, n) else 0
  {
    hide Subscribing, OwnerLinks, Mentions, AllData, IsActualDdi, IsControlDdi;
    if n == 0 {
      SubscribingNone(ddi, element, onChange);
    } else {
      SubscribingLinks(pool, actual, n - 1, ddi, element, onChange);
      var o, before := pool[n - 1], Links(pool, actual, n - 1);
      if Selected(o, actual) {
        SubscribingOwners(pool, o, |pool|, ddi, element, onChange);
        SubscribingConcat(before, OwnerLinks(pool, o, |pool|), ddi, element, onChange);
      } else {
        assert before + [] == before;
      }
    }
  }

  /**
   How often the first pass subscribes a DDI at an element: once for each mention, in the child lists of
   that element, of each object that asks for it. Time intervals are asked for actual values only.
   */
  lemma SubscriptionsSent(pool: Pool, ddi: nat, element: nat)
    ensures multiset(BuiltCommands(pool))[SubscribeOnChange(ddi, element, 1)] ==
            if || ddi == 141 || 161 <= ddi <= 176 || 367 <= ddi <= 382
               || ddi == 160 || ddi == 289 || 290 <= ddi <= 305
            then AskingMentions(pool, ddi, element, true, |pool|) else 0
    ensures multiset(BuiltCommands(pool))[SubscribeInterval(ddi, element, 1000)] ==
            if ddi == 141 || 161 <= ddi <= 176 || 367 <= ddi <= 382
            then AskingMentions(pool, ddi, element, false, |pool|) else 0
  {
    hide Links, Subscribing, AskingMentions, AllCommands;
    LinksAreData(pool, true, |pool|);
    LinksAreData(pool, false, |pool|);
    var actual, control := Links(pool, true, |pool|), Links(pool, false, |pool|);
    OneCommandPerOccurrence(actual, true, ddi, element);
    OneCommandPerOccurrence(control, false, ddi, element);
    SubscribingLinks(pool, true, |pool|, ddi, element, true);
    SubscribingLinks(pool, true, |pool|, ddi, element, false);
    SubscribingLinks(pool, false, |pool|, ddi, element, true);
    CountOfConcat(AllCommands(actual, true), AllCommands(control, false), SubscribeOnChange(ddi, element, 1));
    CountOfConcat(AllCommands(actual, true), AllCommands(control, false), SubscribeInterval(ddi, element, 1000));
  }

  // ---------------------------------------------------------------------------------------------
  // What the index is
  // ---------------------------------------------------------------------------------------------

  /** The last occurrence in pool order decides; DDIs that never occur keep what they had. */
  lemma {:induction false} LastLinkWins(ddiElement: map<nat, nat>, links: seq<Link>, ddi: nat)
    requires AllData(links)
    ensures var after := Index(ddiElement, links);
            (exists k :: IsLast(links, ddi, k) && ddi in after && after[ddi] == links[k].element)
            || ((forall k :: 0 <= k < |links| ==> links[k].data.ddi != ddi)
                && (ddi in after <==> ddi in ddiElement) && (ddi in after ==> after[ddi] == ddiElement[ddi]))
  {
    if links != [] {
      var last := |links| - 1;
      var before := links[..last];
      LastLinkWins(ddiElement, before, ddi);
      if links[last].data.ddi == ddi {
        assert IsLast(links, ddi, last);
      } else if exists k :: IsLast(before, ddi, k) {
        var k :| IsLast(before, ddi, k);
        assert IsLast(links, ddi, k);
        assert forall j :: IsLast(before, ddi, j) ==> j == k;
      } else {
        assert forall k :: 0 <= k < |links| ==> links[k].data.ddi != ddi by {
          forall k | 0 <= k < |links| ensures links[k].data.ddi != ddi {
            if k < last { assert before[k] == links[k]; }
          }
        }
      }
    }
  }

  ghost predicate IsLast(links: seq<Link>, ddi: nat, k: int)
    requires AllData(links)
  {
    && 0 <= k < |links|
    && links[k].data.ddi == ddi
    && forall j :: k < j < |links| ==> links[j].data.ddi != ddi
  }

  /** The index sends the DDI to its last occurrence, and nowhere if it has none. */
  ghost predicate IndexedByLast(links: seq<Link>, index: map<nat, nat>, ddi: nat)
    requires AllData(links)
  {
    if ddi in index then exists k :: IsLast(links, ddi, k) && index[ddi] == links[k].element
    else forall k :: 0 <= k < |links| ==> links[k].data.ddi != ddi
  }

  /** A DDI that the pass does not select occurs in none of its links, which then leave it as it was. */
  lemma OtherPassKeeps(pool: Pool, actual: bool, ddiElement: map<nat, nat>, ddi: nat)
    requires if actual then !IsActualDdi(ddi) else !IsControlDdi(ddi)
    ensures AllData(Links(pool, actual, |pool|))
    ensures var after := Index(ddiElement, Links(pool, actual, |pool|));
            (ddi in after <==> ddi in ddiElement) && (ddi in after ==> after[ddi] == ddiElement[ddi])
  {
    hide Links, Index;
    LinksAreData(pool, actual, |pool|);
    var links := Links(pool, actual, |pool|);
    LastLinkWins(ddiElement, links, ddi);
    forall k | 0 <= k < |links| ensures links[k].data.ddi != ddi {
      assert links[k] in links;
    }
  }

  lemma FirstIndexing(links: seq<Link>, ddiElement: map<nat, nat>, ddi: nat)
    requires AllData(links) && ddi !in ddiElement
    ensures IndexedByLast(links, Index(ddiElement, links), ddi)
  {
    hide Index, IsLast;
    LastLinkWins(ddiElement, links, ddi);
  }

  /**
   The first pass maps a tracked DDI to the element of its last occurrence in pool order, and to nothing
   if it has none.
   */
  lemma IndexIsLastOccurrence(pool: Pool, ddi: nat, actual: bool)
    requires if actual then IsActualDdi(ddi) else IsControlDdi(ddi)
    ensures AllData(Links(pool, actual, |pool|))
    ensures IndexedByLast(Links(pool, actual, |pool|), BuiltIndex(map[], pool), ddi)
  {
    hide Index, Links, IsLast, GnssOwner;
    LinksAreData(pool, true, |pool|);
    LinksAreData(pool, false, |pool|);
    var first := Index(map[], Links(pool, true, |pool|));
    if actual {
      FirstIndexing(Links(pool, true, |pool|), map[], ddi);
      OtherPassKeeps(pool, false, first, ddi);
    } else {
      OtherPassKeeps(pool, true, map[], ddi);
      FirstIndexing(Links(pool, false, |pool|), first, ddi);
    }
  }

  ghost predicate Owns(pool: Pool, i: int, id: nat) {
    0 <= i < |pool| && pool[i].Element? && id in pool[i].children
  }

  /** Some process data object with this DDI is in the child list of some device element. */
  ghost predicate Listed(pool: Pool, ddi: nat) {
    exists i, o :: 0 <= i < |pool| && pool[i].ProcessData? && pool[i].ddi == ddi && Owns(pool, o, pool[i].id)
  }

  lemma {:induction false} MentionedIffOwned(pool: Pool, id: nat, number: nat, n: nat)
    requires n <= |pool|
    ensures Mentions(pool, id, number, n) > 0 <==> exists o :: o < n && Owns(pool, o, id) && pool[o].number == number
  {
    if n != 0 {
      MentionedIffOwned(pool, id, number, n - 1);
      if Owns(pool, n - 1, id) && pool[n - 1].number == number {
        assert multiset(pool[n - 1].children)[id] > 0;
      }
    }
  }

  lemma BothPositive(copies: nat, mentions: nat)
    ensures copies * mentions > 0 <==> copies > 0 && mentions > 0
  {
  }

  /** An occurrence is visited exactly if its object is in the pool and its element lists the object. */
  lemma VisitedIff(pool: Pool, actual: bool, link: Link)
    requires Selected(link.data, actual)
    ensures link in Links(pool, actual, |pool|) <==>
            link.data in pool && exists o :: Owns(pool, o, link.data.id) && pool[o].number == link.element
  {
    hide Links, Mentions;
    LinksCount(pool, actual, |pool|, link);
    MentionedIffOwned(pool, link.data.id, link.element, |pool|);
    assert pool[..|pool|] == pool;
    BothPositive(multiset(pool)[link.data], Mentions(pool, link.data.id, link.element, |pool|));
    assert link in Links(pool, actual, |pool|) <==> link in multiset(Links(pool, actual, |pool|));
    assert link.data in pool <==> link.data in multiset(pool);
  }

  /** A tracked DDI can be addressed after the first pass exactly if some element lists an object with it. */
  lemma IndexedIffListed(pool: Pool, ddi: nat, actual: bool)
    requires if actual then IsActualDdi(ddi) else IsControlDdi(ddi)
    ensures ddi in BuiltIndex(map[], pool) <==> Listed(pool, ddi)
  {
    hide BuiltIndex, Links;
    IndexIsLastOccurrence(pool, ddi, actual);
    LinksAreData(pool, actual, |pool|);
    var links := Links(pool, actual, |pool|);
    if ddi in BuiltIndex(map[], pool) {
      var k :| IsLast(links, ddi, k);
      assert links[k] in links;
      VisitedIff(pool, actual, links[k]);
      var i :| 0 <= i < |pool| && pool[i] == links[k].data;
      var o :| Owns(pool, o, links[k].data.id);
      assert Owns(pool, o, pool[i].id);
    }
    if Listed(pool, ddi) {
      var i, o :| 0 <= i < |pool| && pool[i].ProcessData? && pool[i].ddi == ddi && Owns(pool, o, pool[i].id);
      var link := Link(pool[i], pool[o].number);
      VisitedIff(pool, actual, link);
      var k :| 0 <= k < |links| && links[k] == link;
      assert links[k].data.ddi == ddi;
    }
  }

  lemma {:induction false} FirstOwnerIsFirst(pool: Pool, id: nat)
    ensures match FirstOwner(pool, id)
            case Some(e) => exists i :: 0 <= i < |pool| && Owns(pool, i, id) && pool[i].number == e
                                        && forall j :: 0 <= j < i ==> !Owns(pool, j, id)
            case None => forall i :: 0 <= i < |pool| ==> !Owns(pool, i, id)
  {
    if pool != [] {
      FirstOwnerIsFirst(pool[1..], id);
      assert forall i :: 0 < i < |pool| ==> Owns(pool, i, id) == Owns(pool[1..], i - 1, id);
      if !Owns(pool, 0, id) {
        if FirstOwner(pool, id).Some? {
          var i :| 0 <= i < |pool[1..]| && Owns(pool[1..], i, id) && pool[1..][i].number == FirstOwner(pool, id).value
                   && forall j :: 0 <= j < i ==> !Owns(pool[1..], j, id);
          assert Owns(pool, i + 1, id);
          assert forall j :: 0 <= j < i + 1 ==> !Owns(pool, j, id);
        }
      } else {
        assert Owns(pool, 0, id);
      }
    }
  }

  lemma {:induction false} GnssOwnerIsLast(pool: Pool, n: nat)
    requires n <= |pool|
    ensures match GnssOwner(pool, n)
            case Some(e) => exists i :: 0 <= i < n && SendsGnss(pool[i]) && FirstOwner(pool, pool[i].id) == Some(e)
                                        && forall j :: i < j < n && SendsGnss(pool[j]) ==>
                                            FirstOwner(pool, pool[j].id).None?
            case None => forall i :: 0 <= i < n && SendsGnss(pool[i]) ==> FirstOwner(pool, pool[i].id).None?
  {
    if n != 0 {
      GnssOwnerIsLast(pool, n - 1);
    }
  }

  /** Object `i` is a process data object for the GNSS quality (DDI 514) that can be set. */
  ghost predicate SettableGnss(pool: Pool, i: int) {
    0 <= i < |pool| && pool[i].ProcessData? && pool[i].ddi == 514 && pool[i].settable
  }

  /** GNSS quality goes to the first owner of the last settable object that has an owner, and nowhere without one. */
  lemma GnssIsFirstOwnerOfLast(pool: Pool)
    ensures var index := BuiltIndex(map[], pool);
            if 514 in index
            then exists i, o :: SettableGnss(pool, i) && Owns(pool, o, pool[i].id)
                                && pool[o].number == index[514]
                                && (forall j :: 0 <= j < o ==> !Owns(pool, j, pool[i].id))
                                && (forall j :: i < j && SettableGnss(pool, j) ==> Unowned(pool, pool[j].id))
            else forall i :: SettableGnss(pool, i) ==> Unowned(pool, pool[i].id)
  {
    hide BuiltIndex, FirstOwner, GnssOwner;
    GnssIsIndexed(pool);
    GnssOwnerIsLast(pool, |pool|);
    forall i | 0 <= i < |pool| && SendsGnss(pool[i])
      ensures var id := pool[i].id;
              match FirstOwner(pool, id)
              case Some(e) => exists o :: 0 <= o < |pool| && Owns(pool, o, id) && pool[o].number == e
                                          && forall j :: 0 <= j < o ==> !Owns(pool, j, id)
              case None => forall o :: 0 <= o < |pool| ==> !Owns(pool, o, id)
    {
      FirstOwnerIsFirst(pool, pool[i].id);
    }
  }

  /** Neither pass selects the GNSS quality, so that its entry is the one added after them. */
  lemma GnssIsIndexed(pool: Pool)
    ensures match GnssOwner(pool, |pool|)
            case Some(e) => GNSS_QUALITY in BuiltIndex(map[], pool) && BuiltIndex(map[], pool)[GNSS_QUALITY] == e
            case None => GNSS_QUALITY !in BuiltIndex(map[], pool)
  {
    hide Links, Index, GnssOwner;
    LinksAreData(pool, true, |pool|);
    LinksAreData(pool, false, |pool|);
    OtherPassKeeps(pool, true, map[], GNSS_QUALITY);
    OtherPassKeeps(pool, false, Index(map[], Links(pool, true, |pool|)), GNSS_QUALITY);
  }

  // ---------------------------------------------------------------------------------------------
  // The index by positions in the pool
  // ---------------------------------------------------------------------------------------------

  lemma {:induction false} IndexConcat(m: map<nat, nat>, a: seq<Link>, b: seq<Link>)
    requires AllData(a) && AllData(b)
    ensures AllData(a + b) && Index(m, a + b) == Index(Index(m, a), b)
  {
    if b == [] {
      assert a + b == a;
    } else {
      assert (a + b)[..|a + b| - 1] == a + b[..|b| - 1];
      IndexConcat(m, a, b[..|b| - 1]);
    }
  }

  lemma {:induction false} IndexOfChildren(m: map<nat, nat>, data: PoolObject, number: nat, children: seq<nat>, n: nat)
    requires n <= |children| && data.ProcessData?
    ensures AllData(ChildLinks(data, number, children, n))
    ensures Index(m, ChildLinks(data, number, children, n)) ==
            if data.id in children[..n] then m[data.ddi := number] else m
  {
    if n != 0 {
      IndexOfChildren(m, data, number, children, n - 1);
      var before := ChildLinks(data, number, children, n - 1);
      assert children[..n] == children[..n - 1] + [children[n - 1]];
      if children[n - 1] == data.id {
        assert (before + [Link(data, number)])[..|before|] == before;
      } else {
        assert before + [] == before;
      }
    }
  }

  /** Object `o` is the last of the first `n` whose child list names `id`. */
  ghost predicate IsLastOwner(pool: Pool, id: nat, n: nat, o: int) {
    o < n && Owns(pool, o, id) && forall p :: o < p < n ==> !Owns(pool, p, id)
  }

  lemma {:induction false} IndexOfOwners(m: map<nat, nat>, pool: Pool, data: PoolObject, n: nat)
    requires n <= |pool| && data.ProcessData?
    ensures AllData(OwnerLinks(pool, data, n))
    ensures var after := Index(m, OwnerLinks(pool, data, n));
            || (exists o :: IsLastOwner(pool, data.id, n, o) && after == m[data.ddi := pool[o].number])
            || ((forall o :: o < n ==> !Owns(pool, o, data.id)) && after == m)
  {
    hide Index, ChildLinks;
    if n == 0 {
      IndexOfNone(m);
    } else {
      IndexOfOwners(m, pool, data, n - 1);
      var o, before := pool[n - 1], OwnerLinks(pool, data, n - 1);
      if o.Element? {
        var children := ChildLinks(data, o.number, o.children, |o.children|);
        IndexOfChildren(Index(m, before), data, o.number, o.children, |o.children|);
        assert o.children[..|o.children|] == o.children;
        IndexConcat(m, before, children);
      } else {
        assert before + [] == before;
      }
      if Owns(pool, n - 1, data.id) {
        assert IsLastOwner(pool, data.id, n, n - 1);
      } else if e :| IsLastOwner(pool, data.id, n - 1, e) && Index(m, before) == m[data.ddi := pool[e].number] {
        assert IsLastOwner(pool, data.id, n, e);
      }
    }
  }

  lemma IndexOfNone(m: map<nat, nat>)
    ensures AllData([]) && Index(m, []) == m
  {
  }

  /**
   Among the first `n` objects `i` is the last one with this DDI that an element lists, and element `o` is
   the last to list it.
   */
  ghost predicate IsLastListing(pool: Pool, ddi: nat, n: nat, i: int, o: int) {
    && 0 <= i < n <= |pool| && pool[i].ProcessData? && pool[i].ddi == ddi
    && IsLastOwner(pool, pool[i].id, |pool|, o)
    && forall j :: i < j < n && pool[j].ProcessData? && pool[j].ddi == ddi ==> Unowned(pool, pool[j].id)
  }

  ghost predicate Unowned(pool: Pool, id: nat) {
    forall o :: !Owns(pool, o, id)
  }

  lemma NewListing(pool: Pool, ddi: nat, n: nat, o: int)
    requires 0 < n <= |pool| && pool[n - 1].ProcessData? && pool[n - 1].ddi == ddi
    requires IsLastOwner(pool, pool[n - 1].id, |pool|, o)
    ensures IsLastListing(pool, ddi, n, n - 1, o)
  {
  }

  lemma ListingStays(pool: Pool, ddi: nat, n: nat)
    requires 0 < n <= |pool|
    requires pool[n - 1].ProcessData? && pool[n - 1].ddi == ddi ==> Unowned(pool, pool[n - 1].id)
    ensures var earlier := n - 1;
            forall i, o :: IsLastListing(pool, ddi, earlier, i, o) ==> IsLastListing(pool, ddi, n, i, o)
  {
    hide IsLastOwner, Unowned;
  }

  lemma {:induction false} IndexOfLinks(m: map<nat, nat>, pool: Pool, actual: bool, n: nat, ddi: nat)
    requires n <= |pool| && if actual then IsActualDdi(ddi) else IsControlDdi(ddi)
    ensures AllData(Links(pool, actual, n))
    ensures var after := Index(m, Links(pool, actual, n));
            || (exists i, o :: IsLastListing(pool, ddi, n, i, o) && ddi in after && after[ddi] == pool[o].number)
            || ((forall i :: 0 <= i < n && pool[i].ProcessData? && pool[i].ddi == ddi ==> Unowned(pool, pool[i].id))
                && (ddi in after <==> ddi in m) && (ddi in after ==> after[ddi] == m[ddi]))
  {
    hide Index, OwnerLinks, IsActualDdi, IsControlDdi, IsLastListing, Unowned;
    if n == 0 {
      IndexOfNone(m);
    } else {
      IndexOfLinks(m, pool, actual, n - 1, ddi);
      var data, before := pool[n - 1], Links(pool, actual, n - 1);
      if Selected(data, actual) {
        IndexOfObject(Index(m, before), pool, data);
        IndexConcat(m, before, OwnerLinks(pool, data, |pool|));
      } else {
        assert before + [] == before;
      }
      if data.ProcessData? && data.ddi == ddi && !Unowned(pool, data.id) {
        var o :| IsLastOwner(pool, data.id, |pool|, o)
                 && Index(m, Links(pool, actual, n)) == Index(m, before)[ddi := pool[o].number];
        NewListing(pool, ddi, n, o);
      } else {
        ListingStays(pool, ddi, n);
      }
    }
  }

  lemma IndexOfObject(m: map<nat, nat>, pool: Pool, data: PoolObject)
    requires data.ProcessData?
    ensures AllData(OwnerLinks(pool, data, |pool|))
    ensures var after := Index(m, OwnerLinks(pool, data, |pool|));
            if Unowned(pool, data.id) then after == m
            else exists o :: IsLastOwner(pool, data.id, |pool|, o) && after == m[data.ddi := pool[o].number]
  {
    hide Index, OwnerLinks;
    IndexOfOwners(m, pool, data, |pool|);
  }

  /**
   Where the first pass addresses a DDI: to the last element that lists the last listed object with it. The
   actual states and the control DDIs are tracked whether or not they can be set.
   */
  lemma IndexedToLastListing(pool: Pool, ddi: nat)
    requires || ddi == 141 || 161 <= ddi <= 176 || 367 <= ddi <= 382
             || ddi == 160 || ddi == 289 || 290 <= ddi <= 305
    ensures ddi in BuiltIndex(map[], pool) <==> Listed(pool, ddi)
    ensures Listed(pool, ddi) ==>
              exists i, o :: IsLastListing(pool, ddi, |pool|, i, o) && BuiltIndex(map[], pool)[ddi] == pool[o].number
  {
    hide Index, Links, GnssOwner, IsLastListing, IsLastOwner;
    LinksAreData(pool, true, |pool|);
    LinksAreData(pool, false, |pool|);
    var first := Index(map[], Links(pool, true, |pool|));
    IndexedIffListed(pool, ddi, IsActualDdi(ddi));
    if IsActualDdi(ddi) {
      IndexOfLinks(map[], pool, true, |pool|, ddi);
      OtherPassKeeps(pool, false, first, ddi);
    } else {
      IndexOfLinks(first, pool, false, |pool|, ddi);
      OtherPassKeeps(pool, true, map[], ddi);
    }
    if Listed(pool, ddi) {
      var i, o :| 0 <= i < |pool| && pool[i].ProcessData? && pool[i].ddi == ddi && Owns(pool, o, pool[i].id);
      assert !Unowned(pool, pool[i].id);
    }
  }

  /**
   What can be addressed after the first pass: the actual work states (141, 161 to 176), the overridden ones
   (367 to 382), the control state (160) and the setpoints (289, 290 to 305) that some element lists, the GNSS
   quality (514) that can be set and that some element lists, and nothing else.
   */
  lemma IndexHolds(pool: Pool, ddi: nat)
    ensures ddi in BuiltIndex(map[], pool) <==>
            || ((|| ddi == 141 || 161 <= ddi <= 176 || 367 <= ddi <= 382
                 || ddi == 160 || ddi == 289 || 290 <= ddi <= 305) && Listed(pool, ddi))
            || (ddi == 514 && exists i, o :: SettableGnss(pool, i) && Owns(pool, o, pool[i].id))
  {
    hide BuiltIndex, Listed, Owns;
    if ddi == 514 {
      GnssIsFirstOwnerOfLast(pool);
    } else if ddi == 141 || 161 <= ddi <= 176 || 367 <= ddi <= 382 || ddi == 160 || ddi == 289 || 290 <= ddi <= 305 {
      IndexedToLastListing(pool, ddi);
    } else {
      UntrackedIsNotIndexed(pool, ddi);
    }
  }

  lemma UntrackedIsNotIndexed(pool: Pool, ddi: nat)
    requires !IsActualDdi(ddi) && !IsControlDdi(ddi) && ddi != GNSS_QUALITY
    ensures ddi !in BuiltIndex(map[], pool)
  {
    hide Index, Links, GnssOwner;
    LinksAreData(pool, true, |pool|);
    LinksAreData(pool, false, |pool|);
    OtherPassKeeps(pool, true, map[], ddi);
    OtherPassKeeps(pool, false, Index(map[], Links(pool, true, |pool|)), ddi);
  }
}
