/** The voice catalog: the `/speakers` response as the JSON deserializer
    hands it over, and its flattening into the items of the voice-model
    drop-down, one `StyleItem` per (speaker, style) pair. */
module Catalog {
  import opened Wrappers
  import opened Text

  /** A C# `int`. */
  type Int32 = x: int | -0x8000_0000 <= x < 0x8000_0000

  /** One element of a speaker's `styles` array. `NullStyle` is a JSON
      `null` there: reading its `id` throws a null-reference exception. A
      missing `name` is taken as the empty string, which is how string
      interpolation renders a null. */
  datatype StyleDto = StyleDto(id: Int32, name: string) | NullStyle

  /** One element of the `/speakers` array. `NullSpeaker` stands for a JSON
      `null` element and for an element whose `styles` is null or missing:
      both throw a null-reference exception before any of its styles is
      reached. */
  datatype SpeakerDto = SpeakerDto(name: string, styles: seq<StyleDto>) | NullSpeaker

  /** An entry of the voice-model drop-down; it displays as its `text`, the source's `Label`. */
  datatype StyleItem = StyleItem(id: Int32, text: string)

  /** The display text `"{speaker} - {style} (ID:{id})"`: the speaker's
      name first, the closing parenthesis last. */
  function Label(speaker: string, style: string, id: Int32): (r: string)
    ensures speaker <= r && |r| > |speaker| + |style| && r[|r| - 1] == ')'
  {
    speaker + " - " + style + " (ID:" + Decimal(id) + ")"
  }

  /** The longest suffix of `s` without `c`. */
  function AfterLast(s: string, c: char): (r: string)
    ensures c !in r && |r| <= |s| && r == s[|s| - |r|..]
  {
    if s == [] || s[|s| - 1] == c then []
    else AfterLast(s[..|s| - 1], c) + [s[|s| - 1]]
  }

  lemma {:induction false} AfterLastJoin(p: string, c: char, d: string)
    requires c !in d
    ensures AfterLast(p + [c] + d, c) == d
    decreases |d|
  {
    var s := p + [c] + d;
    if d != [] {
      assert s[..|s| - 1] == p + [c] + d[..|d| - 1];
      AfterLastJoin(p, c, d[..|d| - 1]);
      assert d[..|d| - 1] + [d[|d| - 1]] == d;
    }
  }

  /** The style id read back from a label: the number between the last `:`
      and the closing parenthesis. */
  function LabelId(shown: string): Option<int>
  {
    if |shown| > 0 && shown[|shown| - 1] == ')' then ParseDecimal(AfterLast(shown[..|shown| - 1], ':'))
    else None
  }

  /** Whatever the speaker and style names contain, the id shown in a label
      reads back as the style id. */
  lemma LabelShowsId(speaker: string, style: string, id: Int32)
    ensures LabelId(Label(speaker, style, id)) == Some(id)
  {
    var l := Label(speaker, style, id);
    var d := Decimal(id);
    assert l[..|l| - 1] == (speaker + " - " + style + " (ID") + [':'] + d;
    forall i | 0 <= i < |d| ensures d[i] != ':' {
    }
    AfterLastJoin(speaker + " - " + style + " (ID", ':', d);
    DecimalRoundTrip(id);
  }

  /** The items added so far, and whether the enumeration ran to the end
      (`false`: it stopped at a null). */
  datatype Listing = Listing(items: seq<StyleItem>, complete: bool)

  /** Enumerating `a`, then `b` if `a` did not stop. */
  function Then(a: Listing, b: Listing): Listing
  {
    if !a.complete then a else Listing(a.items + b.items, b.complete)
  }

  /** What line 137 adds for one style of speaker `name`. */
  function StyleEntry(name: string, st: StyleDto): Listing
  {
    match st
    case NullStyle => Listing([], false)
    case StyleDto(id, styleName) => Listing([StyleItem(id, Label(name, styleName, id))], true)
  }

  /** The inner `foreach` over one speaker's styles. */
  function StyleItems(name: string, styles: seq<StyleDto>): (r: Listing)
    ensures |r.items| <= |styles|
  {
    if styles == [] then Listing([], true)
    else Then(StyleItems(name, styles[..|styles| - 1]), StyleEntry(name, styles[|styles| - 1]))
  }

  function SpeakerItems(sp: SpeakerDto): Listing
  {
    match sp
    case NullSpeaker => Listing([], false)
    case SpeakerDto(name, styles) => StyleItems(name, styles)
  }

  /** The nested `foreach` of lines 135-137, speaker by speaker. */
  function Flatten(speakers: seq<SpeakerDto>): (r: Listing)
    ensures |r.items| <= PairCount(speakers)
  {
    if speakers == [] then Listing([], true)
    else Then(Flatten(speakers[..|speakers| - 1]), SpeakerItems(speakers[|speakers| - 1]))
  }

  /** No null anywhere in the response. */
  predicate NullFree(speakers: seq<SpeakerDto>)
  {
    forall k :: 0 <= k < |speakers| ==> SpeakerNullFree(speakers[k])
  }

  predicate SpeakerNullFree(sp: SpeakerDto)
  {
    sp.SpeakerDto? && forall j :: 0 <= j < |sp.styles| ==> sp.styles[j].StyleDto?
  }

  function StyleCount(sp: SpeakerDto): nat
  {
    if sp.SpeakerDto? then |sp.styles| else 0
  }

  /** The number of (speaker, style) pairs in `speakers`. */
  function PairCount(speakers: seq<SpeakerDto>): nat
  {
    if speakers == [] then 0
    else PairCount(speakers[..|speakers| - 1]) + StyleCount(speakers[|speakers| - 1])
  }

  /** The item line 137 builds for a (speaker, style) pair. */
  function PairItem(speaker: string, st: StyleDto): StyleItem
    requires st.StyleDto?
  {
    StyleItem(st.id, Label(speaker, st.name, st.id))
  }

  lemma ThenAssociative(a: Listing, b: Listing, c: Listing)
    ensures Then(Then(a, b), c) == Then(a, Then(b, c))
  {
  }

  /** Enumerating a concatenation is enumerating one part, then the other. */
  lemma {:induction false} FlattenAppend(a: seq<SpeakerDto>, b: seq<SpeakerDto>)
    ensures Flatten(a + b) == Then(Flatten(a), Flatten(b))
    decreases |b|
  {
    if b == [] {
      assert a + b == a;
    } else {
      var last := b[|b| - 1];
      assert (a + b)[..|a + b| - 1] == a + b[..|b| - 1];
      FlattenAppend(a, b[..|b| - 1]);
      ThenAssociative(Flatten(a), Flatten(b[..|b| - 1]), SpeakerItems(last));
    }
  }

  lemma {:induction false} StyleItemsAppend(name: string, a: seq<StyleDto>, b: seq<StyleDto>)
    ensures StyleItems(name, a + b) == Then(StyleItems(name, a), StyleItems(name, b))
    decreases |b|
  {
    if b == [] {
      assert a + b == a;
    } else {
      assert (a + b)[..|a + b| - 1] == a + b[..|b| - 1];
      StyleItemsAppend(name, a, b[..|b| - 1]);
      ThenAssociative(StyleItems(name, a), StyleItems(name, b[..|b| - 1]), StyleEntry(name, b[|b| - 1]));
    }
  }

  /** A speaker without nulls yields one item per style, in order. */
  lemma {:induction false} StyleItemsOfNullFree(name: string, styles: seq<StyleDto>)
    requires forall j :: 0 <= j < |styles| ==> styles[j].StyleDto?
    ensures StyleItems(name, styles).complete
    ensures |StyleItems(name, styles).items| == |styles|
    ensures forall j :: 0 <= j < |styles| ==> StyleItems(name, styles).items[j] == PairItem(name, styles[j])
    decreases |styles|
  {
    if styles != [] {
      StyleItemsOfNullFree(name, styles[..|styles| - 1]);
    }
  }

  /** The enumeration runs to the end exactly when the response has no null. */
  lemma {:induction false} FlattenCompleteIff(speakers: seq<SpeakerDto>)
    ensures Flatten(speakers).complete <==> NullFree(speakers)
    decreases |speakers|
  {
    if speakers != [] {
      FlattenCompleteIff(speakers[..|speakers| - 1]);
      SpeakerCompleteIff(speakers[|speakers| - 1]);
      FlattenLast(speakers);
      NullFreeLast(speakers);
    }
  }

  lemma NullFreeLast(speakers: seq<SpeakerDto>)
    requires speakers != []
    ensures NullFree(speakers)
        <==> NullFree(speakers[..|speakers| - 1]) && SpeakerNullFree(speakers[|speakers| - 1])
  {
    var init := speakers[..|speakers| - 1];
    if NullFree(init) && SpeakerNullFree(speakers[|speakers| - 1]) {
      forall k | 0 <= k < |speakers| ensures SpeakerNullFree(speakers[k]) {
        if k < |init| {
          assert speakers[k] == init[k];
        }
      }
    }
    if NullFree(speakers) {
      forall k | 0 <= k < |init| ensures SpeakerNullFree(init[k]) {
        assert speakers[k] == init[k];
      }
    }
  }

  /** One more speaker keeps the enumeration complete exactly when its own
      styles enumerate completely. */
  lemma FlattenLast(speakers: seq<SpeakerDto>)
    requires speakers != []
    ensures Flatten(speakers).complete
        <==> Flatten(speakers[..|speakers| - 1]).complete && SpeakerItems(speakers[|speakers| - 1]).complete
  {
  }

  lemma SpeakerCompleteIff(sp: SpeakerDto)
    ensures SpeakerItems(sp).complete <==> SpeakerNullFree(sp)
  {
    if sp.SpeakerDto? {
      StyleCompleteIff(sp.name, sp.styles);
    }
  }

  lemma {:induction false} StyleCompleteIff(name: string, styles: seq<StyleDto>)
    ensures StyleItems(name, styles).complete <==> forall j :: 0 <= j < |styles| ==> styles[j].StyleDto?
    decreases |styles|
  {
    if styles != [] {
      StyleCompleteIff(name, styles[..|styles| - 1]);
      StyleItemsLast(name, styles);
      assert styles == styles[..|styles| - 1] + [styles[|styles| - 1]];
      NoNullStyleLast(styles[..|styles| - 1], styles[|styles| - 1]);
    }
  }

  lemma NoNullStyleLast(init: seq<StyleDto>, last: StyleDto)
    ensures (forall j :: 0 <= j < |init + [last]| ==> (init + [last])[j].StyleDto?)
        <==> (forall j :: 0 <= j < |init| ==> init[j].StyleDto?) && last.StyleDto?
  {
    var all := init + [last];
    assert all[|init|] == last;
    if forall j :: 0 <= j < |all| ==> all[j].StyleDto? {
      forall j | 0 <= j < |init| ensures init[j].StyleDto? {
        assert all[j] == init[j];
      }
    }
    if (forall j :: 0 <= j < |init| ==> init[j].StyleDto?) && last.StyleDto? {
      forall j | 0 <= j < |all| ensures all[j].StyleDto? {
        if j < |init| {
          assert all[j] == init[j];
        }
      }
    }
  }

  /** One more style keeps the listing complete exactly when it is not null. */
  lemma StyleItemsLast(name: string, styles: seq<StyleDto>)
    requires styles != []
    ensures StyleItems(name, styles).complete
        <==> StyleItems(name, styles[..|styles| - 1]).complete && styles[|styles| - 1].StyleDto?
  {
    var last := styles[|styles| - 1];
    assert StyleEntry(name, last).complete <==> last.StyleDto?;
  }

  /** Without nulls, the list holds exactly as many items as there are
      (speaker, style) pairs. */
  lemma {:induction false} FlattenLength(speakers: seq<SpeakerDto>)
    requires NullFree(speakers)
    ensures Flatten(speakers).complete
    ensures |Flatten(speakers).items| == PairCount(speakers)
    decreases |speakers|
  {
    if speakers != [] {
      var init, last := speakers[..|speakers| - 1], speakers[|speakers| - 1];
      assert NullFree(init) by {
        forall k | 0 <= k < |init| ensures SpeakerNullFree(init[k]) {
          assert init[k] == speakers[k];
        }
      }
      FlattenLength(init);
      assert SpeakerNullFree(last);
      StyleItemsOfNullFree(last.name, last.styles);
    }
  }

  lemma NullFreeSlice(speakers: seq<SpeakerDto>, lo: nat, hi: nat)
    requires NullFree(speakers) && lo <= hi <= |speakers|
    ensures NullFree(speakers[lo..hi])
  {
    forall k | 0 <= k < hi - lo ensures SpeakerNullFree(speakers[lo..hi][k]) {
      assert speakers[lo..hi][k] == speakers[lo + k];
    }
  }

  /** Without nulls, style `j` of speaker `k` sits right after the items of
      the speakers before `k` and of the styles before `j`: the list is in
      speaker-major input order, one item per pair. */
  lemma FlattenAt(speakers: seq<SpeakerDto>, k: nat, j: nat)
    requires NullFree(speakers) && k < |speakers| && j < |speakers[k].styles|
    ensures PairCount(speakers[..k]) + j < |Flatten(speakers).items|
    ensures Flatten(speakers).items[PairCount(speakers[..k]) + j]
         == PairItem(speakers[k].name, speakers[k].styles[j])
  {
    var before, at, after := speakers[..k], speakers[k], speakers[k + 1..];
    assert speakers == before + [at] + after;
    FlattenAppend(before + [at], after);
    FlattenAppend(before, [at]);
    assert Flatten([at]) == SpeakerItems(at) by {
      assert [at][..0] == [];
    }
    NullFreeSlice(speakers, 0, k);
    FlattenLength(before);
    StyleItemsOfNullFree(at.name, at.styles);
  }

  /** Without nulls, the list is empty exactly when no speaker has a style:
      the state that draws the "no styles" warning, distinct from a failed
      request. */
  lemma {:induction false} FlattenEmptyIff(speakers: seq<SpeakerDto>)
    requires NullFree(speakers)
    ensures Flatten(speakers).items == [] <==> forall k :: 0 <= k < |speakers| ==> speakers[k].styles == []
  {
    FlattenLength(speakers);
    if Flatten(speakers).items == [] {
      forall k | 0 <= k < |speakers| ensures speakers[k].styles == [] {
        if speakers[k].styles != [] {
          FlattenAt(speakers, k, 0);
        }
      }
    } else {
      var k: nat :| k < |speakers| && speakers[k].styles != [] by {
        PairCountPositive(speakers);
      }
    }
  }

  lemma {:induction false} PairCountPositive(speakers: seq<SpeakerDto>)
    requires PairCount(speakers) > 0
    ensures exists k :: 0 <= k < |speakers| && StyleCount(speakers[k]) > 0
    decreases |speakers|
  {
    var init, last := speakers[..|speakers| - 1], speakers[|speakers| - 1];
    if StyleCount(last) == 0 {
      PairCountPositive(init);
      var k :| 0 <= k < |init| && StyleCount(init[k]) > 0;
      assert speakers[k] == init[k];
    }
  }

  /** Items already added are never taken back: the items from the first
      speakers start the list. */
  lemma FlattenPrefix(speakers: seq<SpeakerDto>, k: nat)
    requires k <= |speakers|
    ensures Flatten(speakers[..k]).items <= Flatten(speakers).items
  {
    assert speakers == speakers[..k] + speakers[k..];
    FlattenAppend(speakers[..k], speakers[k..]);
  }

  lemma ExampleLabels()
    ensures Label("A", "x", 1) == "A - x (ID:1)"
    ensures Label("B", "y", 2) == "B - y (ID:2)"
    ensures Label("B", "z", 3) == "B - z (ID:3)"
  {
    assert Decimal(1) == "1" && Decimal(2) == "2" && Decimal(3) == "3";
  }

  /** The worked example: speakers A (style x, id 1) and B (styles y, z with
      ids 2, 3) give three labels in input order. */
  lemma FlattenExample()
    ensures Flatten([SpeakerDto("A", [StyleDto(1, "x")]),
                     SpeakerDto("B", [StyleDto(2, "y"), StyleDto(3, "z")])]).items
         == [StyleItem(1, "A - x (ID:1)"), StyleItem(2, "B - y (ID:2)"), StyleItem(3, "B - z (ID:3)")]
  {
    var a := SpeakerDto("A", [StyleDto(1, "x")]);
    var b := SpeakerDto("B", [StyleDto(2, "y"), StyleDto(3, "z")]);
    assert [a, b][..1] == [a];
    assert [a][..0] == [];
    ExampleLabels();
    StyleItemsOfNullFree("A", a.styles);
    StyleItemsOfNullFree("B", b.styles);
    assert Flatten([a]).items == [StyleItem(1, "A - x (ID:1)")];
    assert SpeakerItems(b).items == [StyleItem(2, "B - y (ID:2)"), StyleItem(3, "B - z (ID:3)")];
  }
}
