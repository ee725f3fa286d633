/**
 Finding the first JSON array or object in a harness's noisy output
 (apps/runtime/src/harnesses/headless-output.ts, `parseFirstJsonValue`).
 */
module JsonScan {
  import opened Optional

  // ----- The scanner -----

  datatype Scan = Scan(depth: int, inString: bool, escaped: bool)

  predicate Opens(c: char) {
    c == '[' || c == '{'
  }

  function Closing(opening: char): char {
    if opening == '[' then ']' else '}'
  }

  // Only the bracket type that opened the value is counted.
  function Next(opening: char, s: Scan, c: char): Scan {
    if s.inString then
      if s.escaped then s.(escaped := false)
      else if c == '\\' then s.(escaped := true)
      else if c == '\"' then s.(inString := false)
      else s
    else if c == '\"' then s.(inString := true)
    else if c == opening then s.(depth := s.depth + 1)
    else if c == Closing(opening) then s.(depth := s.depth - 1)
    else s
  }

  // How many characters the scan takes until its depth is back at zero.
  function Taken(opening: char, s: Scan, text: string): Option<nat>
    decreases |text|
  {
    if text == "" then None
    else
      var next := Next(opening, s, text[0]);
      // Inside a string the depth is not looked at.
      if !s.inString && next.depth == 0 then Some(1)
      else
        match Taken(opening, next, text[1..])
        case Some(n) => Some(n + 1)
        case None => None
  }

  function FirstOpening(text: string): nat {
    if text == "" || Opens(text[0]) then 0 else 1 + FirstOpening(text[1..])
  }

  // The slice handed to the JSON parser.
  function FirstValue(text: string): Option<string>
  {
    FirstOpeningIsInside(text);
    var start := FirstOpening(text);
    if start == |text| then None
    else
      match Taken(text[start], Scan(0, false, false), text[start..])
      case Some(n) => (TakenIsInside(text[start], Scan(0, false, false), text[start..]); Some(text[start..start + n]))
      case None => None
  }

  lemma {:induction false} FirstOpeningIsInside(text: string)
    ensures FirstOpening(text) <= |text| && (FirstOpening(text) < |text| ==> Opens(text[FirstOpening(text)]))
    ensures forall i :: 0 <= i < FirstOpening(text) ==> !Opens(text[i])
  {
    if text != "" && !Opens(text[0]) {
      FirstOpeningIsInside(text[1..]);
    }
  }

  lemma {:induction false} TakenIsInside(opening: char, s: Scan, text: string)
    ensures Taken(opening, s, text).Some? ==> 1 <= Taken(opening, s, text).value <= |text|
    decreases |text|
  {
    if text != "" && !(!s.inString && Next(opening, s, text[0]).depth == 0) {
      TakenIsInside(opening, Next(opening, s, text[0]), text[1..]);
    }
  }

  method ParseFirstJsonValue(value: string) returns (slice: Option<string>)
    ensures slice == FirstValue(value)
  {
    var start := SearchOpening(value);
    if start == |value| {
      return None;
    }
    var opening := value[start];
    var closing := if opening == '[' then ']' else '}';
    var depth, inString, escaped := 0, false, false;
    var index := start;
    EndIsTaken(opening, Scan(0, false, false), value, start);
    while index < |value|
      invariant start <= index <= |value|
      invariant End(opening, Scan(0, false, false), value, start) ==
                  End(opening, Scan(depth, inString, escaped), value, index)
    {
      var c := value[index];
      if inString {
        if escaped {
          escaped := false;
        } else if c == '\\' {
          escaped := true;
        } else if c == '\"' {
          inString := false;
        }
        index := index + 1;
        continue;
      }
      if c == '\"' {
        inString := true;
      } else if c == opening {
        depth := depth + 1;
      } else if c == closing {
        depth := depth - 1;
      }
      if depth == 0 {
        return Some(value[start..index + 1]);
      }
      index := index + 1;
    }
    return None;
  }

  // Where the scan stops, by index.
  function End(opening: char, s: Scan, value: string, index: nat): Option<nat>
    requires index <= |value|
    decreases |value| - index
  {
    if index == |value| then None
    else
      var next := Next(opening, s, value[index]);
      if !s.inString && next.depth == 0 then Some(index + 1) else End(opening, next, value, index + 1)
  }

  lemma {:induction false} EndIsTaken(opening: char, s: Scan, value: string, index: nat)
    requires index <= |value|
    ensures End(opening, s, value, index) == Later(Taken(opening, s, value[index..]), index)
    decreases |value| - index
  {
    if index < |value| {
      EndIsTaken(opening, Next(opening, s, value[index]), value, index + 1);
      assert value[index..][0] == value[index] && value[index..][1..] == value[index + 1..];
    }
  }

  function Later(taken: Option<nat>, already: nat): Option<nat> {
    match taken
    case Some(n) => Some(n + already)
    case None => None
  }

  method SearchOpening(value: string) returns (start: nat)
    ensures start == FirstOpening(value) && start <= |value|
  {
    start := 0;
    while start < |value| && !Opens(value[start])
      invariant start <= |value| && FirstOpening(value) == start + FirstOpening(value[start..])
    {
      assert value[start..][1..] == value[start + 1..];
      start := start + 1;
    }
  }

  // ----- JSON texts (RFC 8259, sections 2 and 7) -----

  // A string character: itself, or a backslash and the character after it.
  datatype StrChar = Plain(c: char) | Escape(c: char)

  datatype Json =
    | Scalar(text: string)
    | Str(chars: seq<StrChar>)
    | Arr(blank: string, items: seq<Item>)
    | Obj(blank: string, members: seq<Member>)

  // A value between its whitespace, and a named one.
  datatype Item = Item(before: string, value: Json, after: string)

  datatype Member = Member(before: string, key: seq<StrChar>, after: string, item: Item)

  // No bracket, quote or backslash: numbers, literal names, whitespace and separators.
  predicate Bare(text: string) {
    forall i :: 0 <= i < |text| ==> text[i] !in {'[', ']', '{', '}', '\"', '\\'}
  }

  predicate WellFormedChars(chars: seq<StrChar>) {
    forall i :: 0 <= i < |chars| ==> chars[i].Plain? ==> chars[i].c != '\"' && chars[i].c != '\\'
  }

  predicate WellFormed(v: Json) {
    match v
    case Scalar(text) => Bare(text)
    case Str(chars) => WellFormedChars(chars)
    case Arr(blank, items) => Bare(blank) && forall i :: 0 <= i < |items| ==> WellFormedItem(items[i])
    case Obj(blank, members) =>
      Bare(blank) && forall i :: 0 <= i < |members| ==>
        && Bare(members[i].before) && WellFormedChars(members[i].key) && Bare(members[i].after)
        && WellFormedItem(members[i].item)
  }

  predicate WellFormedItem(item: Item) {
    Bare(item.before) && WellFormed(item.value) && Bare(item.after)
  }

  function PrintChars(chars: seq<StrChar>): string {
    if chars == [] then ""
    else (if chars[0].Plain? then [chars[0].c] else ['\\', chars[0].c]) + PrintChars(chars[1..])
  }

  function PrintString(chars: seq<StrChar>): string {
    "\"" + PrintChars(chars) + "\""
  }

  function Print(v: Json): string {
    match v
    case Scalar(text) => text
    case Str(chars) => PrintString(chars)
    case Arr(blank, items) => "[" + (if items == [] then blank else PrintItems(items)) + "]"
    case Obj(blank, members) => "{" + (if members == [] then blank else PrintMembers(members)) + "}"
  }

  function PrintItem(item: Item): string {
    item.before + Print(item.value) + item.after
  }

  function PrintItems(items: seq<Item>): string {
    if items == [] then ""
    else PrintItem(items[0]) + (if |items| == 1 then "" else ",") + PrintItems(items[1..])
  }

  function PrintMember(member: Member): string {
    member.before + PrintString(member.key) + member.after + ":" + PrintItem(member.item)
  }

  function PrintMembers(members: seq<Member>): string {
    if members == [] then ""
    else PrintMember(members[0]) + (if |members| == 1 then "" else ",") + PrintMembers(members[1..])
  }

  // ----- What scanning a text does -----

  function After(opening: char, s: Scan, text: string): Scan
    decreases |text|
  {
    if text == "" then s else After(opening, Next(opening, s, text[0]), text[1..])
  }

  // The scan does not stop anywhere in this text.
  predicate Runs(opening: char, s: Scan, text: string)
    decreases |text|
  {
    text == "" || ((s.inString || Next(opening, s, text[0]).depth != 0)
                   && Runs(opening, Next(opening, s, text[0]), text[1..]))
  }

  // From inside the value, the text is crossed without stopping and leaves the scan where it was.
  predicate Crossed(opening: char, depth: nat, text: string) {
    var s := Scan(depth, false, false);
    Runs(opening, s, text) && After(opening, s, text) == s
  }

  lemma {:induction false} RunsConcat(opening: char, s: Scan, a: string, b: string)
    ensures Runs(opening, s, a + b) <==> Runs(opening, s, a) && Runs(opening, After(opening, s, a), b)
    ensures After(opening, s, a + b) == After(opening, After(opening, s, a), b)
    decreases |a|
  {
    if a == "" {
      assert a + b == b;
    } else {
      assert (a + b)[1..] == a[1..] + b;
      RunsConcat(opening, Next(opening, s, a[0]), a[1..], b);
    }
  }

  lemma CrossedConcat(opening: char, depth: nat, a: string, b: string)
    requires Crossed(opening, depth, a) && Crossed(opening, depth, b)
    ensures Crossed(opening, depth, a + b)
  {
    RunsConcat(opening, Scan(depth, false, false), a, b);
  }

  lemma {:induction false} BareIsCrossed(opening: char, depth: nat, text: string)
    requires Opens(opening) && depth > 0 && Bare(text)
    ensures Crossed(opening, depth, text)
  {
    if text != "" {
      BareIsCrossed(opening, depth, text[1..]);
    }
  }

  lemma {:induction false} CharsStayInside(opening: char, depth: nat, chars: seq<StrChar>)
    requires WellFormedChars(chars)
    ensures var s := Scan(depth, true, false);
            Runs(opening, s, PrintChars(chars)) && After(opening, s, PrintChars(chars)) == s
    decreases |chars|
  {
    if chars != [] {
      CharsStayInside(opening, depth, chars[1..]);
      var first := if chars[0].Plain? then [chars[0].c] else ['\\', chars[0].c];
      assert PrintChars(chars) == first + PrintChars(chars[1..]);
      var s := Scan(depth, true, false);
      if chars[0].Plain? {
        assert first[1..] == "";
      } else {
        assert first[1..] == [chars[0].c] && [chars[0].c][1..] == "";
        assert Runs(opening, s.(escaped := true), [chars[0].c])
               && After(opening, s.(escaped := true), [chars[0].c]) == s;
      }
      assert Runs(opening, s, first) && After(opening, s, first) == s;
      RunsConcat(opening, s, first, PrintChars(chars[1..]));
    }
  }

  lemma StringIsCrossed(opening: char, depth: nat, chars: seq<StrChar>)
    requires Opens(opening) && depth > 0 && WellFormedChars(chars)
    ensures Crossed(opening, depth, PrintString(chars))
  {
    var s, body := Scan(depth, false, false), PrintChars(chars);
    CharsStayInside(opening, depth, chars);
    var quote := "\"";
    assert quote[1..] == "";
    RunsConcat(opening, s, quote, body);
    RunsConcat(opening, s, quote + body, quote);
    assert After(opening, s, quote) == s.(inString := true);
    assert After(opening, s.(inString := true), quote) == s;
  }

  // A bracketed text is crossed whether or not its brackets are the counted ones.
  lemma BracketsAreCrossed(opening: char, depth: nat, bracket: char, inner: string)
    requires Opens(opening) && Opens(bracket) && depth > 0
    requires Crossed(opening, depth, inner) && Crossed(opening, depth + 1, inner)
    ensures Crossed(opening, depth, [bracket] + inner + [Closing(bracket)])
  {
    var s := Scan(depth, false, false);
    RunsConcat(opening, s, [bracket], inner);
    RunsConcat(opening, s, [bracket] + inner, [Closing(bracket)]);
    assert [bracket][1..] == "" && [Closing(bracket)][1..] == "";
    var inside := if bracket == opening then Scan(depth + 1, false, false) else s;
    assert After(opening, s, [bracket]) == inside;
    assert Runs(opening, s, [bracket]) && After(opening, inside, [Closing(bracket)]) == s
           && Runs(opening, inside, [Closing(bracket)]);
  }

  /** Any JSON text is crossed, at any depth inside the value, whatever brackets and escapes its strings hold. */
  lemma {:induction false} JsonIsCrossed(opening: char, depth: nat, v: Json)
    requires Opens(opening) && depth > 0 && WellFormed(v)
    ensures Crossed(opening, depth, Print(v))
    decreases v, 0
  {
    match v
    case Scalar(text) => BareIsCrossed(opening, depth, text);
    case Str(chars) => StringIsCrossed(opening, depth, chars);
    case Arr(blank, items) =>
      ArrayIsCrossed(opening, depth, v);
      ArrayIsCrossed(opening, depth + 1, v);
      BracketsAreCrossed(opening, depth, '[', if items == [] then blank else PrintItems(items));
    case Obj(blank, members) =>
      ObjectIsCrossed(opening, depth, v);
      ObjectIsCrossed(opening, depth + 1, v);
      BracketsAreCrossed(opening, depth, '{', if members == [] then blank else PrintMembers(members));
  }

  lemma ArrayIsCrossed(opening: char, depth: nat, v: Json)
    requires Opens(opening) && depth > 0 && WellFormed(v) && v.Arr?
    ensures Crossed(opening, depth, if v.items == [] then v.blank else PrintItems(v.items))
    decreases v, 0, 0
  {
    if v.items == [] {
      BareIsCrossed(opening, depth, v.blank);
    } else {
      ItemsAreCrossed(opening, depth, v.items);
    }
  }

  lemma ObjectIsCrossed(opening: char, depth: nat, v: Json)
    requires Opens(opening) && depth > 0 && WellFormed(v) && v.Obj?
    ensures Crossed(opening, depth, if v.members == [] then v.blank else PrintMembers(v.members))
    decreases v, 0, 0
  {
    if v.members == [] {
      BareIsCrossed(opening, depth, v.blank);
    } else {
      MembersAreCrossed(opening, depth, v.members);
    }
  }

  lemma ItemIsCrossed(opening: char, depth: nat, item: Item)
    requires Opens(opening) && depth > 0 && WellFormedItem(item)
    ensures Crossed(opening, depth, PrintItem(item))
    decreases item, 0
  {
    BareIsCrossed(opening, depth, item.before);
    JsonIsCrossed(opening, depth, item.value);
    BareIsCrossed(opening, depth, item.after);
    CrossedConcat(opening, depth, item.before, Print(item.value));
    CrossedConcat(opening, depth, item.before + Print(item.value), item.after);
  }

  lemma {:induction false} ItemsAreCrossed(opening: char, depth: nat, items: seq<Item>)
    requires Opens(opening) && depth > 0 && forall i :: 0 <= i < |items| ==> WellFormedItem(items[i])
    ensures Crossed(opening, depth, PrintItems(items))
    decreases items, 0
  {
    if items != [] {
      var comma := if |items| == 1 then "" else ",";
      ItemIsCrossed(opening, depth, items[0]);
      BareIsCrossed(opening, depth, comma);
      ItemsAreCrossed(opening, depth, items[1..]);
      CrossedConcat(opening, depth, PrintItem(items[0]), comma);
      CrossedConcat(opening, depth, PrintItem(items[0]) + comma, PrintItems(items[1..]));
    }
  }

  lemma {:induction false} MembersAreCrossed(opening: char, depth: nat, members: seq<Member>)
    requires Opens(opening) && depth > 0
    requires forall i :: 0 <= i < |members| ==>
               && Bare(members[i].before) && WellFormedChars(members[i].key) && Bare(members[i].after)
               && WellFormedItem(members[i].item)
    ensures Crossed(opening, depth, PrintMembers(members))
    decreases members, 0
  {
    if members != [] {
      var comma := if |members| == 1 then "" else ",";
      MemberIsCrossed(opening, depth, members[0]);
      BareIsCrossed(opening, depth, comma);
      MembersAreCrossed(opening, depth, members[1..]);
      CrossedConcat(opening, depth, PrintMember(members[0]), comma);
      CrossedConcat(opening, depth, PrintMember(members[0]) + comma, PrintMembers(members[1..]));
    }
  }

  lemma MemberIsCrossed(opening: char, depth: nat, member: Member)
    requires Opens(opening) && depth > 0
    requires Bare(member.before) && WellFormedChars(member.key) && Bare(member.after) && WellFormedItem(member.item)
    ensures Crossed(opening, depth, PrintMember(member))
    decreases member, 0
  {
    BareIsCrossed(opening, depth, member.before);
    StringIsCrossed(opening, depth, member.key);
    BareIsCrossed(opening, depth, member.after);
    BareIsCrossed(opening, depth, ":");
    ItemIsCrossed(opening, depth, member.item);
    CrossedConcat(opening, depth, member.before, PrintString(member.key));
    CrossedConcat(opening, depth, member.before + PrintString(member.key), member.after);
    CrossedConcat(opening, depth, member.before + PrintString(member.key) + member.after, ":");
    CrossedConcat(opening, depth, member.before + PrintString(member.key) + member.after + ":", PrintItem(member.item));
  }

  // ----- Where the scan stops -----

  lemma {:induction false} TakenAfterRunning(opening: char, s: Scan, a: string, b: string)
    requires Runs(opening, s, a)
    ensures Taken(opening, s, a + b) == Later(Taken(opening, After(opening, s, a), b), |a|)
    decreases |a|
  {
    if a == "" {
      assert a + b == b;
    } else {
      assert (a + b)[1..] == a[1..] + b;
      TakenAfterRunning(opening, Next(opening, s, a[0]), a[1..], b);
    }
  }

  lemma {:induction false} NoiseIsSkipped(noise: string, rest: string)
    requires (forall i :: 0 <= i < |noise| ==> !Opens(noise[i])) && rest != "" && Opens(rest[0])
    ensures FirstOpening(noise + rest) == |noise|
  {
    if noise == "" {
      assert noise + rest == rest;
    } else {
      assert (noise + rest)[1..] == noise[1..] + rest;
      NoiseIsSkipped(noise[1..], rest);
    }
  }

  lemma ValueIsTaken(opening: char, inner: string, suffix: string)
    requires Opens(opening) && Crossed(opening, 1, inner)
    ensures Taken(opening, Scan(0, false, false), [opening] + inner + [Closing(opening)] + suffix) == Some(|inner| + 2)
  {
    var s, head := Scan(0, false, false), [opening] + inner;
    assert [opening][1..] == "";
    RunsConcat(opening, s, [opening], inner);
    var rest := [Closing(opening)] + suffix;
    TakenAfterRunning(opening, s, head, rest);
    assert head + rest == [opening] + inner + [Closing(opening)] + suffix;
  }

  /** After noise with no opening bracket, and before anything at all, a printed JSON array or object is
      found, whole and alone, whatever brackets and escapes its strings hold. */
  lemma FindsExactlyTheValue(noise: string, v: Json, suffix: string)
    requires forall i :: 0 <= i < |noise| ==> !Opens(noise[i])
    requires WellFormed(v) && (v.Arr? || v.Obj?)
    ensures FirstValue(noise + Print(v) + suffix) == Some(Print(v))
  {
    var text := noise + Print(v) + suffix;
    var inner := match v
      case Arr(blank, items) => if items == [] then blank else PrintItems(items)
      case Obj(blank, members) => if members == [] then blank else PrintMembers(members);
    var opening := if v.Arr? then '[' else '{';
    if v.Arr? {
      ArrayIsCrossed(opening, 1, v);
    } else {
      ObjectIsCrossed(opening, 1, v);
    }
    assert Print(v) == [opening] + inner + [Closing(opening)];
    assert text == noise + (Print(v) + suffix);
    NoiseIsSkipped(noise, Print(v) + suffix);
    ValueIsTaken(opening, inner, suffix);
    assert text[|noise|..] == Print(v) + suffix;
    assert text[|noise|..|noise| + |Print(v)|] == Print(v);
  }
}
