/**
 * The two requests the page sends to the chat-completion proxy: the routine
 * request built from the resolved selection, and the follow-up chat request
 * built from the text typed into the chat form.
 */
module Requests {
  import opened Wrappers
  import opened Catalog

  datatype Role = System | User | Assistant

  datatype Message = Message(role: Role, content: string)

  /** The JSON body posted to the proxy: `{ model, messages }`. */
  datatype ProxyRequest = ProxyRequest(model: string, messages: seq<Message>)

  const ModelName: string := "gpt-4o"

  const RoutineInstruction: string :=
    "You are a L'Oréal advisor helping customers build routines using only the products listed."

  const RoutineIntro: string := "Here are the selected products:\n\n"

  const EntrySeparator: string := "\n\n"

  const RoutineOutro: string := "\n\nPlease generate a full routine using only these."

  const ChatInstruction: string :=
    "You are a skincare routine assistant specialized in L'Oréal Paris products. "
    + "Only answer questions related to skincare routines, product ingredients, application steps, "
    + "and L'Oréal products. Politely decline any unrelated topics, such as politics, history, "
    + "entertainment, or general trivia, and remind the user to ask about skincare."

  /** `needle` appears as a contiguous piece of `hay`. */
  ghost predicate Occurs(needle: string, hay: string) {
    exists i :: OccursAt(needle, hay, i)
  }

  /** `needle` appears in `hay` starting at index `i`. */
  ghost predicate OccursAt(needle: string, hay: string, i: int) {
    0 <= i <= |hay| - |needle| && hay[i..i + |needle|] == needle
  }

  /** Whatever occurs in a piece of a text occurs in the whole text. */
  lemma OccursWithin(needle: string, pre: string, mid: string, post: string)
    requires Occurs(needle, mid)
    ensures Occurs(needle, pre + mid + post)
  {
    var i :| OccursAt(needle, mid, i);
    var hay := pre + mid + post;
    assert hay[|pre| + i..|pre| + i + |needle|] == mid[i..i + |needle|];
    assert OccursAt(needle, hay, |pre| + i);
  }

  /** `parts` separated by `sep`, as JavaScript's `parts.join(sep)`. */
  function Join(parts: seq<string>, sep: string): (r: string)
    ensures parts == [] ==> r == ""
    ensures |parts| == 1 ==> r == parts[0]
    ensures parts != [] ==> |r| >= |parts[0]| && r[..|parts[0]|] == parts[0]
    ensures parts != [] ==> |r| >= |parts[|parts| - 1]| && r[|r| - |parts[|parts| - 1]|..] == parts[|parts| - 1]
  {
    if parts == [] then ""
    else if |parts| == 1 then parts[0]
    else parts[0] + sep + Join(parts[1..], sep)
  }

  /** Joining two non-empty lists is joining each and putting `sep` between them. */
  lemma {:induction false} JoinAppend(a: seq<string>, b: seq<string>, sep: string)
    requires a != [] && b != []
    ensures Join(a + b, sep) == Join(a, sep) + sep + Join(b, sep)
    decreases |a|
  {
    var ab := a + b;
    assert ab[0] == a[0];
    if |a| == 1 {
      assert ab[1..] == b;
      assert Join(ab, sep) == a[0] + sep + Join(b, sep);
    } else {
      assert ab[1..] == a[1..] + b;
      JoinAppend(a[1..], b, sep);
      var head, rest := a[0] + sep, Join(a[1..], sep);
      assert Join(a, sep) == head + rest;
      assert Join(ab, sep) == head + (rest + sep + Join(b, sep));
      Regroup(head, rest, sep, Join(b, sep));
    }
  }

  /** Concatenation regrouped, kept apart from the facts about `Join`. */
  lemma Regroup(w: string, x: string, y: string, z: string)
    ensures w + (x + y + z) == (w + x) + y + z
  {
  }

  /** Every part of a join appears in the joined text. */
  lemma {:induction false} JoinContains(parts: seq<string>, sep: string, k: nat)
    requires k < |parts|
    ensures Occurs(parts[k], Join(parts, sep))
  {
    var j := Join(parts, sep);
    if k == 0 {
      assert j[0..|parts[0]|] == parts[0];
      assert OccursAt(parts[0], j, 0);
    } else {
      JoinContains(parts[1..], sep, k - 1);
      assert parts[1..][k - 1] == parts[k];
      OccursWithin(parts[k], parts[0] + sep, Join(parts[1..], sep), "");
      assert parts[0] + sep + Join(parts[1..], sep) + "" == j;
    }
  }

  /** One line of the routine request: `- name by brand: description`. */
  function Entry(p: Product): (r: string)
    ensures |r| == 8 + |p.name| + |p.brand| + |p.description|
    ensures r[..2] == "- "
    ensures OccursAt(p.name, r, 2)
    ensures OccursAt(" by ", r, 2 + |p.name|)
    ensures OccursAt(p.brand, r, 6 + |p.name|)
    ensures OccursAt(": ", r, 6 + |p.name| + |p.brand|)
    ensures OccursAt(p.description, r, 8 + |p.name| + |p.brand|)
  {
    "- " + p.name + " by " + p.brand + ": " + p.description
  }

  lemma EntryMentions(p: Product)
    ensures Occurs(p.name, Entry(p)) && Occurs(p.brand, Entry(p)) && Occurs(p.description, Entry(p))
  {
  }

  /** The entries of the products, in the order given. */
  function Entries(selected: seq<Product>): (r: seq<string>)
    ensures |r| == |selected|
    ensures forall i :: 0 <= i < |selected| ==> r[i] == Entry(selected[i])
  {
    seq(|selected|, i requires 0 <= i < |selected| => Entry(selected[i]))
  }

  /** A text made of a head, a middle and a tail starts with the head and ends with the tail. */
  lemma Framed(head: string, middle: string, tail: string)
    ensures |head + middle + tail| >= |head| + |tail|
    ensures (head + middle + tail)[..|head|] == head
    ensures (head + middle + tail)[|head + middle + tail| - |tail|..] == tail
  {
    var text := head + middle + tail;
    assert text == head + (middle + tail);
  }

  /** The user message of the routine request, listing the products in the order given. */
  function RoutineListing(selected: seq<Product>): (text: string)
    ensures |text| >= |RoutineIntro| + |RoutineOutro|
    ensures text[..|RoutineIntro|] == RoutineIntro
    ensures text[|text| - |RoutineOutro|..] == RoutineOutro
  {
    Framed(RoutineIntro, Join(Entries(selected), EntrySeparator), RoutineOutro);
    RoutineIntro + Join(Entries(selected), EntrySeparator) + RoutineOutro
  }

  /** What occurs in a piece that occurs in a text occurs in the text. */
  lemma OccursTransitive(needle: string, mid: string, hay: string)
    requires Occurs(needle, mid) && Occurs(mid, hay)
    ensures Occurs(needle, hay)
  {
    var i :| OccursAt(mid, hay, i);
    assert hay == hay[..i] + mid + hay[i + |mid|..];
    OccursWithin(needle, hay[..i], mid, hay[i + |mid|..]);
  }

  /** The listing contains the entry of every selected product. */
  lemma RoutineListingHasEntry(selected: seq<Product>, k: nat)
    requires k < |selected|
    ensures Occurs(Entry(selected[k]), RoutineListing(selected))
  {
    var entries := Entries(selected);
    JoinContains(entries, EntrySeparator, k);
    OccursWithin(entries[k], RoutineIntro, Join(entries, EntrySeparator), RoutineOutro);
  }

  /** The routine request names every selected product with its brand and description. */
  lemma RoutineListingMentions(selected: seq<Product>, p: Product)
    requires p in selected
    ensures Occurs(Entry(p), RoutineListing(selected))
    ensures Occurs(p.name, RoutineListing(selected))
    ensures Occurs(p.brand, RoutineListing(selected))
    ensures Occurs(p.description, RoutineListing(selected))
  {
    var k :| 0 <= k < |selected| && selected[k] == p;
    RoutineListingHasEntry(selected, k);
    EntryMentions(p);
    OccursTransitive(p.name, Entry(p), RoutineListing(selected));
    OccursTransitive(p.brand, Entry(p), RoutineListing(selected));
    OccursTransitive(p.description, Entry(p), RoutineListing(selected));
  }

  /**
   * The routine request for the resolved selection: none when nothing is
   * selected (the page alerts instead), otherwise the fixed instruction
   * followed by the listing of the products.
   */
  function RoutineRequest(selected: seq<Product>): (r: Option<ProxyRequest>)
    ensures r.None? <==> selected == []
    ensures r.Some? ==> r.value.model == ModelName
    ensures r.Some? ==> |r.value.messages| == 2
    ensures r.Some? ==> r.value.messages[0] == Message(System, RoutineInstruction)
    ensures r.Some? ==> r.value.messages[1] == Message(User, RoutineListing(selected))
  {
    if |selected| == 0 then None
    else Some(ProxyRequest(ModelName, [Message(System, RoutineInstruction), Message(User, RoutineListing(selected))]))
  }

  /** A character that JavaScript's `String.prototype.trim` removes: white space or a line terminator. */
  predicate IsJsSpace(c: char) {
    var n := c as int;
    (0x09 <= n <= 0x0D) || n == 0x20 || n == 0xA0 || n == 0x1680 || (0x2000 <= n <= 0x200A)
    || n == 0x2028 || n == 0x2029 || n == 0x202F || n == 0x205F || n == 0x3000 || n == 0xFEFF
  }

  /** Spaces, tabs and line breaks are trimmed; letters and digits never are. */
  lemma JsSpaceClass(c: char)
    ensures c == ' ' || c == '\t' || c == '\n' || c == '\r' ==> IsJsSpace(c)
    ensures IsJsSpace(c) ==> !('0' <= c <= '9' || 'A' <= c <= 'Z' || 'a' <= c <= 'z')
  {
  }

  /** `s` without its leading white space. */
  function TrimStart(s: string): (r: string)
    ensures |r| <= |s| && r == s[|s| - |r|..]
    ensures forall i :: 0 <= i < |s| - |r| ==> IsJsSpace(s[i])
    ensures r != [] ==> !IsJsSpace(r[0])
  {
    if s != [] && IsJsSpace(s[0]) then TrimStart(s[1..]) else s
  }

  /** `s` without its trailing white space. */
  function TrimEnd(s: string): (r: string)
    ensures |r| <= |s| && r == s[..|r|]
    ensures forall i :: |r| <= i < |s| ==> IsJsSpace(s[i])
    ensures r != [] ==> !IsJsSpace(r[|r| - 1])
  {
    if s != [] && IsJsSpace(s[|s| - 1]) then TrimEnd(s[..|s| - 1]) else s
  }

  /** `r` is the piece of `s` starting at `i`, and everything around it is white space. */
  ghost predicate TrimmedSlice(s: string, r: string, i: int) {
    0 <= i && i + |r| <= |s| && r == s[i..i + |r|]
    && (forall k :: 0 <= k < i ==> IsJsSpace(s[k]))
    && (forall k :: i + |r| <= k < |s| ==> IsJsSpace(s[k]))
  }

  /** Trimming both ends leaves a slice of `s` with only white space around it. */
  lemma TrimBothIsSlice(s: string)
    ensures TrimmedSlice(s, TrimEnd(TrimStart(s)), |s| - |TrimStart(s)|)
  {
    var t := TrimStart(s);
    var r := TrimEnd(t);
    var i := |s| - |t|;
    assert r == s[i..i + |r|];
    forall k | i + |r| <= k < |s| ensures IsJsSpace(s[k]) {
      assert s[k] == t[k - i];
      assert |r| <= k - i < |t|;
    }
    assert TrimmedSlice(s, r, i);
  }

  /** Trimming both ends leaves nothing exactly when `s` is all white space. */
  lemma TrimBothEmptyIff(s: string)
    ensures TrimEnd(TrimStart(s)) == [] <==> forall k :: 0 <= k < |s| ==> IsJsSpace(s[k])
  {
  }

  /** What is left after trimming both ends neither starts nor ends with white space. */
  lemma TrimBothEnds(s: string)
    ensures var r := TrimEnd(TrimStart(s));
      r != [] ==> !IsJsSpace(r[0]) && !IsJsSpace(r[|r| - 1])
  {
  }

  /** `s` without leading and trailing white space, as `s.trim()`. */
  function Trim(s: string): (r: string)
    ensures exists i :: TrimmedSlice(s, r, i)
    ensures r != [] ==> !IsJsSpace(r[0]) && !IsJsSpace(r[|r| - 1])
    ensures r == [] <==> forall k :: 0 <= k < |s| ==> IsJsSpace(s[k])
  {
    TrimBothIsSlice(s);
    TrimBothEmptyIff(s);
    TrimBothEnds(s);
    TrimEnd(TrimStart(s))
  }

  /** Trimming trimmed text changes nothing. */
  lemma TrimIdempotent(s: string)
    ensures Trim(Trim(s)) == Trim(s)
  {
  }

  /**
   * The follow-up chat request for the text in the input box: none when the
   * text is empty after trimming, otherwise the fixed chat instruction and the
   * trimmed text as the only user message.
   */
  function ChatRequest(input: string): (r: Option<ProxyRequest>)
    ensures r.None? <==> forall k :: 0 <= k < |input| ==> IsJsSpace(input[k])
    ensures r.Some? ==> r.value.model == ModelName
    ensures r.Some? ==> r.value.messages == [Message(System, ChatInstruction), Message(User, Trim(input))]
    ensures r.Some? ==> Trim(input) != [] && !IsJsSpace(Trim(input)[0]) && !IsJsSpace(Trim(input)[|Trim(input)| - 1])
  {
    var userText := Trim(input);
    if userText == "" then None
    else Some(ProxyRequest(ModelName, [Message(System, ChatInstruction), Message(User, userText)]))
  }
}
