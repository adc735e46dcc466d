/**
 * Grouping of the parsed slots into the five day buffers, Monday to
 * Friday, that feed the page template. Rendering one slot through the slot
 * template is abstracted as a function `render` from a slot to a fragment;
 * a day buffer is the sequence of fragments written into it.
 */
module Process {
  import opened Text
  import opened Rules
  import opened Palette
  import opened Timetable
  import opened Parser

  /** `order` visits every activity of the map exactly once, as ranging over the map does. */
  predicate IsVisitOrder(activities: Activities, order: seq<string>)
  {
    && |order| == |activities|
    && (forall i :: 0 <= i < |order| ==> order[i] in activities)
    && (forall i, j :: 0 <= i < j < |order| ==> order[i] != order[j])
  }

  /** The slots of the activities named by `order`, activity after activity. */
  function SlotsInOrder(activities: Activities, order: seq<string>): seq<Slot>
    requires forall i :: 0 <= i < |order| ==> order[i] in activities
  {
    if |order| == 0 then []
    else SlotsInOrder(activities, order[..|order| - 1]) + activities[order[|order| - 1]].slots
  }

  /** The fragments of the slots that fall on day `d`, in the order of the slots. */
  function DayFragments<F>(slots: seq<Slot>, d: nat, render: Slot -> F): seq<F>
  {
    if |slots| == 0 then []
    else
      var last := slots[|slots| - 1];
      DayFragments(slots[..|slots| - 1], d, render) + (if last.day == d then [render(last)] else [])
  }

  /**
   * Renders every slot of every activity, in the visiting order, and writes
   * its fragment into the buffer of its day.
   */
  method ProcessInput<F>(activities: Activities, order: seq<string>, render: Slot -> F) returns (days: seq<seq<F>>)
    requires IsVisitOrder(activities, order)
    requires forall k :: k in activities ==> forall s :: s in activities[k].slots ==> s.day < 5
    ensures |days| == 5
    ensures forall d :: 0 <= d < 5 ==> days[d] == DayFragments(SlotsInOrder(activities, order), d, render)
  {
    var buffers := new seq<F>[5](_ => []);
    for i := 0 to |order|
      invariant forall d :: 0 <= d < 5 ==> buffers[d] == DayFragments(SlotsInOrder(activities, order[..i]), d, render)
    {
      var activity := activities[order[i]];
      var done := SlotsInOrder(activities, order[..i]);
      assert done + activity.slots[..0] == done;
      for j := 0 to |activity.slots|
        invariant forall d :: 0 <= d < 5 ==> buffers[d] == DayFragments(done + activity.slots[..j], d, render)
      {
        var slot := activity.slots[j];
        assert done + activity.slots[..j + 1] == (done + activity.slots[..j]) + [slot];
        DayFragmentsAppend(done + activity.slots[..j], slot, render);
        buffers[slot.day] := buffers[slot.day] + [render(slot)];
      }
      assert activity.slots[..|activity.slots|] == activity.slots;
      assert order[..i + 1][..i] == order[..i];
    }
    assert order[..|order|] == order;
    days := buffers[..];
  }

  /** The number of slots held by all the activities of the map, whatever their order. */
  ghost function TotalSlots(activities: Activities): nat
    decreases |activities|
  {
    if |activities| == 0 then 0
    else
      var k := SomeKey(activities);
      RemoveOne(activities, k);
      |activities[k].slots| + TotalSlots(activities - {k})
  }

  /** One key of a non-empty map, chosen arbitrarily. */
  ghost function SomeKey(activities: Activities): (k: string)
    requires |activities| > 0
    ensures k in activities
  {
    assert activities.Keys != {};
    var k :| k in activities; k
  }

  /** The number of slots in `slots` that fall on day `d`. */
  function CountOnDay(slots: seq<Slot>, d: nat): nat
  {
    if |slots| == 0 then 0
    else CountOnDay(slots[..|slots| - 1], d) + (if slots[|slots| - 1].day == d then 1 else 0)
  }

  /** Taking out any one activity takes out exactly its slots from the total. */
  lemma {:induction false} TotalSlotsRemove(activities: Activities, k: string)
    requires k in activities
    ensures TotalSlots(activities) == |activities[k].slots| + TotalSlots(activities - {k})
    decreases |activities|
  {
    var j := SomeKey(activities);
    if j != k {
      var withoutJ := activities - {j};
      var withoutK := activities - {k};
      RemoveOne(activities, j);
      RemoveOne(activities, k);
      assert k in withoutJ && withoutJ[k] == activities[k];
      assert j in withoutK && withoutK[j] == activities[j];
      TotalSlotsRemove(withoutJ, k);
      TotalSlotsRemove(withoutK, j);
      assert withoutJ - {k} == withoutK - {j};
    }
  }

  lemma RemoveOne(activities: Activities, k: string)
    requires k in activities
    ensures (activities - {k}).Keys == activities.Keys - {k}
    ensures |activities - {k}| == |activities| - 1
  {
    assert (activities - {k}).Keys == activities.Keys - {k};
  }

  /** Only the activities `order` names matter to the slots listed in that order. */
  lemma {:induction false} SlotsInOrderFrame(activities: Activities, fewer: Activities, order: seq<string>)
    requires forall i :: 0 <= i < |order| ==> order[i] in fewer
    requires forall k :: k in fewer ==> k in activities && activities[k] == fewer[k]
    ensures SlotsInOrder(activities, order) == SlotsInOrder(fewer, order)
    decreases |order|
  {
    if |order| > 0 {
      SlotsInOrderFrame(activities, fewer, order[..|order| - 1]);
    }
  }

  /** Without its last activity, a visiting order visits the map without that activity. */
  lemma VisitOrderDrop(activities: Activities, order: seq<string>)
    requires IsVisitOrder(activities, order) && |order| > 0
    ensures IsVisitOrder(activities - {order[|order| - 1]}, order[..|order| - 1])
    ensures SlotsInOrder(activities, order[..|order| - 1]) == SlotsInOrder(activities - {order[|order| - 1]}, order[..|order| - 1])
  {
    var last := order[|order| - 1];
    var prefix := order[..|order| - 1];
    assert (activities - {last}).Keys == activities.Keys - {last};
    assert forall i :: 0 <= i < |prefix| ==> prefix[i] != last;
    SlotsInOrderFrame(activities, activities - {last}, prefix);
  }

  /** A visiting order lists as many slots as the map holds. */
  lemma {:induction false} SlotsInOrderCount(activities: Activities, order: seq<string>)
    requires IsVisitOrder(activities, order)
    ensures |SlotsInOrder(activities, order)| == TotalSlots(activities)
    decreases |order|
  {
    if |order| > 0 {
      var last := order[|order| - 1];
      VisitOrderDrop(activities, order);
      SlotsInOrderCount(activities - {last}, order[..|order| - 1]);
      TotalSlotsRemove(activities, last);
    }
  }

  /** A visiting order lists every slot of every activity of the map. */
  lemma {:induction false} SlotsInOrderCovers(activities: Activities, order: seq<string>, k: string, j: nat)
    requires IsVisitOrder(activities, order)
    requires k in activities && j < |activities[k].slots|
    ensures activities[k].slots[j] in SlotsInOrder(activities, order)
    decreases |order|
  {
    assert |order| > 0;
    var last := order[|order| - 1];
    var prefix := order[..|order| - 1];
    assert SlotsInOrder(activities, order) == SlotsInOrder(activities, prefix) + activities[last].slots;
    if k != last {
      VisitOrderDrop(activities, order);
      SlotsInOrderCovers(activities - {last}, prefix, k, j);
    }
  }

  /** Every slot listed in a visiting order comes from an activity of the map. */
  lemma {:induction false} SlotsInOrderDays(activities: Activities, order: seq<string>)
    requires forall i :: 0 <= i < |order| ==> order[i] in activities
    requires forall k :: k in activities ==> forall s :: s in activities[k].slots ==> s.day < 5
    ensures forall i :: 0 <= i < |SlotsInOrder(activities, order)| ==> SlotsInOrder(activities, order)[i].day < 5
    decreases |order|
  {
    if |order| > 0 {
      SlotsInOrderDays(activities, order[..|order| - 1]);
    }
  }

  /** A slot added at the end adds its fragment at the end of its own day's buffer only. */
  lemma DayFragmentsAppend<F>(slots: seq<Slot>, slot: Slot, render: Slot -> F)
    ensures forall d :: DayFragments(slots + [slot], d, render)
              == DayFragments(slots, d, render) + (if slot.day == d then [render(slot)] else [])
  {
    assert (slots + [slot])[..|slots|] == slots;
  }

  /** Every slot on a weekday yields exactly one fragment across the five buffers. */
  lemma {:induction false} FragmentCount<F>(slots: seq<Slot>, render: Slot -> F)
    requires forall i :: 0 <= i < |slots| ==> slots[i].day < 5
    ensures |DayFragments(slots, 0, render)| + |DayFragments(slots, 1, render)| + |DayFragments(slots, 2, render)|
            + |DayFragments(slots, 3, render)| + |DayFragments(slots, 4, render)| == |slots|
  {
    if |slots| > 0 {
      FragmentCount(slots[..|slots| - 1], render);
    }
  }

  /**
   * Each slot's fragment is in the buffer of the slot's own day, at the
   * position given by the number of earlier slots on that day.
   */
  lemma {:induction false} SlotLandsInItsDay<F>(slots: seq<Slot>, i: nat, render: Slot -> F)
    requires i < |slots|
    ensures CountOnDay(slots[..i], slots[i].day) < |DayFragments(slots, slots[i].day, render)|
    ensures DayFragments(slots, slots[i].day, render)[CountOnDay(slots[..i], slots[i].day)] == render(slots[i])
  {
    var n := |slots| - 1;
    var d := slots[i].day;
    if i < n {
      SlotLandsInItsDay(slots[..n], i, render);
      assert slots[..n][..i] == slots[..i];
      assert slots[..n][i] == slots[i];
    } else {
      assert slots[..i] == slots[..n];
      BufferLength(slots[..n], d, render);
    }
  }

  /** A day's buffer holds one fragment per slot on that day. */
  lemma {:induction false} BufferLength<F>(slots: seq<Slot>, d: nat, render: Slot -> F)
    ensures |DayFragments(slots, d, render)| == CountOnDay(slots, d)
  {
    if |slots| > 0 {
      BufferLength(slots[..|slots| - 1], d, render);
    }
  }

  /**
   * For any visiting order of the activities, the five buffers together
   * hold one fragment per slot of the map, and the fragment of every slot
   * of every activity is in the buffer of that slot's day.
   */
  lemma BuffersHoldEverySlot<F>(activities: Activities, order: seq<string>, render: Slot -> F)
    requires IsVisitOrder(activities, order)
    requires forall k :: k in activities ==> forall s :: s in activities[k].slots ==> s.day < 5
    ensures var slots := SlotsInOrder(activities, order);
            |DayFragments(slots, 0, render)| + |DayFragments(slots, 1, render)| + |DayFragments(slots, 2, render)|
            + |DayFragments(slots, 3, render)| + |DayFragments(slots, 4, render)| == TotalSlots(activities)
    ensures forall k, j :: k in activities && 0 <= j < |activities[k].slots| ==>
              render(activities[k].slots[j]) in DayFragments(SlotsInOrder(activities, order), activities[k].slots[j].day, render)
  {
    var slots := SlotsInOrder(activities, order);
    SlotsInOrderDays(activities, order);
    FragmentCount(slots, render);
    SlotsInOrderCount(activities, order);
    forall k, j | k in activities && 0 <= j < |activities[k].slots|
      ensures render(activities[k].slots[j]) in DayFragments(slots, activities[k].slots[j].day, render)
    {
      SlotsInOrderCovers(activities, order, k, j);
      var i :| 0 <= i < |slots| && slots[i] == activities[k].slots[j];
      SlotLandsInItsDay(slots, i, render);
    }
  }

  lemma SampleHeader()
    ensures CheckHeader("/* ours@2.0 */").None?
  {
    HeaderShape("/* ours@2.0 */", "2.0");
  }

  lemma SampleActivityLine()
    ensures Classify("A@GREEN@Maths") == ActivityLine(ActivityFields("A", "GREEN", "Maths"))
  {
    var a := ActivityFields("A", "GREEN", "Maths");
    assert ActivityText(a) == "A@GREEN@Maths";
    MatchActivityText(a);
  }

  lemma SampleColor()
    ensures ConvertColor("GREEN") == Some(BuiltInColors["green"])
  {
    assert Split("GREEN", '#') == ["GREEN"] by { NoHashInColorName("GREEN"); }
    assert ToLower("GREEN") == "green";
  }

  lemma SampleSlotLine()
    ensures Classify("A::Room 1:MON:0900:1030") == SlotLine(SlotFields("A", "", "Room 1", "MON", "0900", "1030"))
  {
    var f := SlotFields("A", "", "Room 1", "MON", "0900", "1030");
    var line := "A::Room 1:MON:0900:1030";
    assert SlotText(f) == line;
    assert IsLocation("Room 1") by {
      assert forall i :: 0 <= i < 6 ==> IsAlnum("Room 1"[i]) || IsSpace("Room 1"[i]);
    }
    assert ValidSlotFields(f);
    SlotShape(line, f);
    assert MatchSlot(line) == Some(f);
    RulesExclusive(line);
    assert MatchActivity(line).None?;
  }

  /** The three lines of a header, one activity and one slot of that activity. */
  predicate IsSampleDocument(lines: seq<string>)
  {
    |lines| == 3 && lines[0] == "/* ours@2.0 */" && lines[1] == "A@GREEN@Maths" && lines[2] == "A::Room 1:MON:0900:1030"
  }
  const SampleSlot: Slot := Slot("A", "", "Room 1", 0, "0900", "1030")

  lemma SampleDeclared(lines: seq<string>)
    requires IsSampleDocument(lines)
    ensures ParseUpTo(lines, 2) == Ok(map["A" := Activity("A", "Maths", BuiltInColors["green"], [])])
  {
    SampleHeader();
    SampleActivityLine();
    SampleColor();
    assert ParseUpTo(lines, 1) == Ok(map[]);
  }

  lemma SampleSlotAdded(color: Color, declared: Activities, f: SlotFields)
    requires declared == map["A" := Activity("A", "Maths", color, [])]
    requires f == SlotFields("A", "", "Room 1", "MON", "0900", "1030")
    ensures AddSlot(declared, f, 3) == Ok(map["A" := Activity("A", "Maths", color, [SampleSlot])])
  {
    DayTokensKnown();
    assert f.day in BuiltInDays;
    assert SlotOf(f) == SampleSlot;
    assert declared["A"].slots + [SampleSlot] == [SampleSlot];
    var parsed := map["A" := Activity("A", "Maths", color, [SampleSlot])];
    assert declared["A" := declared["A"].(slots := [SampleSlot])].Keys == parsed.Keys;
    assert declared["A" := declared["A"].(slots := [SampleSlot])] == parsed;
  }

  lemma SampleParsed(lines: seq<string>)
    requires IsSampleDocument(lines)
    ensures Parse(lines) == Ok(map["A" := Activity("A", "Maths", BuiltInColors["green"], [SampleSlot])])
  {
    SampleDeclared(lines);
    var declared := ParseUpTo(lines, 2).value;
    SampleSlotLine();
    SampleSlotAdded(BuiltInColors["green"], declared, SlotFields("A", "", "Room 1", "MON", "0900", "1030"));
  }

  lemma SampleBuckets<F>(color: Color, parsed: Activities, render: Slot -> F)
    requires parsed == map["A" := Activity("A", "Maths", color, [SampleSlot])]
    ensures DayFragments(SlotsInOrder(parsed, ["A"]), 0, render) == [render(SampleSlot)]
    ensures forall d :: 1 <= d < 5 ==> DayFragments(SlotsInOrder(parsed, ["A"]), d, render) == []
  {
    var order := ["A"];
    assert order[..0] == [];
    assert SlotsInOrder(parsed, order) == [SampleSlot];
    assert [SampleSlot][..0] == [];
  }

  /**
   * The three-line document of a header, one activity and one slot parses
   * without error, and its single slot lands in Monday's buffer alone.
   */
  lemma EndToEnd<F>(lines: seq<string>, render: Slot -> F)
    requires IsSampleDocument(lines)
    ensures Parse(lines).Ok? && Parse(lines).value.Keys == {"A"}
    ensures Parse(lines).value["A"].slots == [SampleSlot]
    ensures DayFragments(SlotsInOrder(Parse(lines).value, ["A"]), 0, render) == [render(SampleSlot)]
    ensures forall d :: 1 <= d < 5 ==> DayFragments(SlotsInOrder(Parse(lines).value, ["A"]), d, render) == []
  {
    SampleParsed(lines);
    var parsed := Parse(lines).value;
    SampleBuckets(BuiltInColors["green"], parsed, render);
  }
}
