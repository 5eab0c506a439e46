/** The message log (game_map.py `Message` and `MessageLog`). */
module Messages {

  /** A colour as an RGB triple. */
  datatype Color = Color(r: int, g: int, b: int)

  const White := Color(0xFF, 0xFF, 0xFF)

  /** A logged message; `count` is how many times it was stacked. */
  datatype Message = Message(text: string, fg: Color, count: nat)

  function DigitChar(d: nat): (c: char)
    requires d < 10
    ensures '0' <= c <= '9' && DigitValue(c) == d
  {
    ('0' as int + d) as char
  }

  function DigitValue(c: char): int
  {
    c as int - '0' as int
  }

  /** Python's `str(n)` for a non-negative integer. */
  function NatToString(n: nat): (s: string)
    ensures |s| >= 1
    ensures forall i | 0 <= i < |s| :: '0' <= s[i] <= '9'
    ensures n > 0 ==> s[0] != '0'
    decreases n
  {
    if n < 10 then [DigitChar(n)] else NatToString(n / 10) + [DigitChar(n % 10)]
  }

  /** Reads decimal digits back. */
  function ParseNat(s: string): int
  {
    if s == [] then 0 else ParseNat(s[..|s| - 1]) * 10 + DigitValue(s[|s| - 1])
  }

  /** The decimal text of a count reads back as the count. */
  lemma {:induction false} ParseNatToString(n: nat)
    ensures ParseNat(NatToString(n)) == n
    decreases n
  {
    if n >= 10 {
      var s := NatToString(n / 10);
      var t := s + [DigitChar(n % 10)];
      assert t[..|t| - 1] == s;
      ParseNatToString(n / 10);
    } else {
      assert [DigitChar(n)][..0] == [];
    }
  }

  /** `full_text`: the text, followed by " (xN)" when the message was stacked N > 1 times. */
  function FullText(m: Message): (s: string)
    ensures m.count <= 1 ==> s == m.text
    ensures m.count > 1 ==>
      && |s| >= |m.text| + 5
      && s[..|m.text|] == m.text
      && s[|m.text|..|m.text| + 3] == " (x"
      && s[|s| - 1] == ')'
      && (forall i | |m.text| + 3 <= i < |s| - 1 :: '0' <= s[i] <= '9')
      && s[|m.text| + 3] != '0'
      && ParseNat(s[|m.text| + 3..|s| - 1]) == m.count
  {
    if m.count > 1 then
      var digits := NatToString(m.count);
      var s := m.text + " (x" + digits + ")";
      assert s[|m.text| + 3..|s| - 1] == digits;
      ParseNatToString(m.count);
      s
    else m.text
  }

  /** Every logged message has been added at least once. */
  predicate ValidLog(log: seq<Message>)
  {
    forall i | 0 <= i < |log| :: log[i].count >= 1
  }

  /** `MessageLog.add(text, fg, stack, dedupe)`. */
  function AddMessage(log: seq<Message>, text: string, fg: Color := White, stack: bool := true, dedupe: bool := false): (r: seq<Message>)
    ensures dedupe && |log| > 0 && log[|log| - 1].text == text ==> r == log
    ensures !(dedupe && |log| > 0 && log[|log| - 1].text == text) && stack && |log| > 0 && log[|log| - 1].text == text ==>
      && |r| == |log|
      && r[..|log| - 1] == log[..|log| - 1]
      && r[|log| - 1] == log[|log| - 1].(count := log[|log| - 1].count + 1)
    ensures !(|log| > 0 && log[|log| - 1].text == text && (dedupe || stack)) ==>
      r == log + [Message(text, fg, 1)]
    ensures ValidLog(log) ==> ValidLog(r)
  {
    var same := |log| > 0 && log[|log| - 1].text == text;
    if dedupe && same then log
    else if stack && same then log[|log| - 1 := log[|log| - 1].(count := log[|log| - 1].count + 1)]
    else log + [Message(text, fg, 1)]
  }

  /** The log as the list of every line ever added, stacked messages written out once per count. */
  function Expand(log: seq<Message>): seq<string>
  {
    if log == [] then [] else Expand(log[..|log| - 1]) + Repeat(log[|log| - 1].text, log[|log| - 1].count)
  }

  function Repeat(t: string, n: nat): (r: seq<string>)
    ensures |r| == n && forall i | 0 <= i < n :: r[i] == t
  {
    if n == 0 then [] else Repeat(t, n - 1) + [t]
  }

  lemma ExpandStacked(log: seq<Message>, text: string)
    requires |log| > 0 && log[|log| - 1].text == text
    ensures Expand(log[|log| - 1 := log[|log| - 1].(count := log[|log| - 1].count + 1)]) == Expand(log) + [text]
  {
    var last := log[|log| - 1];
    var r := log[|log| - 1 := last.(count := last.count + 1)];
    assert r[..|r| - 1] == log[..|log| - 1];
    var pre := Expand(log[..|log| - 1]);
    assert Expand(r) == pre + Repeat(text, last.count + 1);
    assert Repeat(text, last.count + 1) == Repeat(text, last.count) + [text];
    assert Expand(log) == pre + Repeat(text, last.count);
  }

  lemma ExpandAppended(log: seq<Message>, m: Message)
    requires m.count == 1
    ensures Expand(log + [m]) == Expand(log) + [m.text]
  {
    var r := log + [m];
    assert r[..|r| - 1] == log;
    assert Repeat(m.text, 1) == [m.text];
  }

  /** Without dedupe, adding a line always adds exactly that line to the expanded log, whether it
      stacked or was appended. With dedupe a repeated line is dropped. */
  lemma AddExtendsExpansion(log: seq<Message>, text: string, fg: Color, stack: bool, dedupe: bool)
    ensures !(dedupe && |log| > 0 && log[|log| - 1].text == text) ==>
      Expand(AddMessage(log, text, fg, stack, dedupe)) == Expand(log) + [text]
    ensures dedupe && |log| > 0 && log[|log| - 1].text == text ==>
      Expand(AddMessage(log, text, fg, stack, dedupe)) == Expand(log)
  {
    var same := |log| > 0 && log[|log| - 1].text == text;
    if !(dedupe && same) {
      if stack && same {
        ExpandStacked(log, text);
      } else {
        ExpandAppended(log, Message(text, fg, 1));
      }
    }
  }
}
