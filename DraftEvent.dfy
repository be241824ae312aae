/** The `draft` event that a successful draft broadcasts: its data is
    `JSON.stringify({ id })`, the JSON object `{"id":<id>}` with the id in
    decimal, and the whole message is `Format("draft", ...)`. A receiver
    can read the id back out of what it was sent. */
module DraftEvent {
  import opened Common
  import opened EventStream

  /** The event name the draft handler broadcasts. */
  const DRAFT: string := "draft"

  predicate IsDigit(c: char) {
    '0' <= c <= '9'
  }

  predicate AllDigits(s: string) {
    forall i :: 0 <= i < |s| ==> IsDigit(s[i])
  }

  function DigitChar(d: nat): (c: char)
    requires d < 10
    ensures IsDigit(c) && c as int - '0' as int == d
  {
    ('0' as int + d) as char
  }

  /** The decimal digits of `n`, most significant first, without leading zeros. */
  function Digits(n: nat): (s: string)
    ensures |s| > 0 && AllDigits(s)
    decreases n
  {
    if n < 10 then [DigitChar(n)] else Digits(n / 10) + [DigitChar(n % 10)]
  }

  /** The number a string of decimal digits denotes. */
  function DigitsValue(s: string): nat
    requires AllDigits(s)
    decreases |s|
  {
    if s == [] then 0
    else
      var init := s[..|s| - 1];
      assert AllDigits(init) by {
        forall i | 0 <= i < |init| ensures IsDigit(init[i]) {
          assert init[i] == s[i];
        }
      }
      DigitsValue(init) * 10 + (s[|s| - 1] as int - '0' as int)
  }

  /** How `JSON.stringify` writes an integer. */
  function Decimal(i: int): string {
    if i < 0 then "-" + Digits(-i) else Digits(i)
  }

  /** Reads an optionally signed decimal integer, or fails. */
  function ReadDecimal(s: string): Option<int> {
    if s != [] && s[0] == '-' && |s| > 1 && AllDigits(s[1..]) then Some(-(DigitsValue(s[1..]) as int))
    else if s != [] && AllDigits(s) then Some(DigitsValue(s))
    else None
  }

  /** `JSON.stringify({ id })`. */
  function Payload(id: int): string {
    "{\"id\":" + Decimal(id) + "}"
  }

  /** Reads the id out of a `{"id":<integer>}` payload, or fails. */
  function ReadPayload(s: string): Option<int> {
    if |s| >= 7 && s[..6] == "{\"id\":" && s[|s| - 1] == '}' then ReadDecimal(s[6..|s| - 1])
    else None
  }

  /** The message the draft handler broadcasts for `id`. */
  function Message(id: int): string {
    Format(DRAFT, Payload(id))
  }

  lemma {:induction false} DigitsRoundTrip(n: nat)
    ensures DigitsValue(Digits(n)) == n
    decreases n
  {
    if n >= 10 {
      DigitsRoundTrip(n / 10);
      var s := Digits(n / 10) + [DigitChar(n % 10)];
      assert s[..|s| - 1] == Digits(n / 10);
    }
  }

  lemma DecimalRoundTrip(i: int)
    ensures ReadDecimal(Decimal(i)) == Some(i)
  {
    if i < 0 {
      var s := Decimal(i);
      assert s[1..] == Digits(-i);
      DigitsRoundTrip(-i);
    } else {
      DigitsRoundTrip(i);
    }
  }

  /** A receiver reads back exactly the id that was drafted. */
  lemma PayloadRoundTrip(id: int)
    ensures ReadPayload(Payload(id)) == Some(id)
  {
    var s := Payload(id);
    assert s[..6] == "{\"id\":";
    assert s[6..|s| - 1] == Decimal(id);
    DecimalRoundTrip(id);
  }

  /** The payload holds no line terminator, so it fits on one `data:` line. */
  lemma PayloadSingleLine(id: int)
    ensures SingleLine(Payload(id))
  {
    var d := Decimal(id);
    var s := Payload(id);
    assert forall i :: 0 <= i < |d| ==> d[i] == '-' || IsDigit(d[i]) by {
      if id < 0 {
        forall i | 1 <= i < |d| ensures IsDigit(d[i]) {
          assert d[i] == Digits(-id)[i - 1];
        }
      }
    }
    forall i | 6 <= i < |s| - 1 ensures s[i] == d[i - 6] { }
  }

  /** Each receiver reads a draft message as one `draft` event whose data
      gives back the drafted id. */
  lemma MessageParses(id: int)
    ensures Parse(Message(id)) == [Event(DRAFT, Payload(id))]
    ensures ReadPayload(Parse(Message(id))[0].data) == Some(id)
  {
    PayloadSingleLine(id);
    FormatParses(DRAFT, Payload(id));
    PayloadRoundTrip(id);
  }

  /** A connection sent just the draft message of `id` reads exactly that
      id's draft event. */
  lemma SingleDraftStream(id: int)
    ensures Parse(Join([Message(id)])) == [Event(DRAFT, Payload(id))]
  {
    assert [Message(id)][1..] == [];
    assert Join([Message(id)]) == Message(id) + "";
    assert Message(id) + "" == Message(id);
    MessageParses(id);
  }

  /** Draft messages for different ids differ. */
  lemma MessageInjective(a: int, b: int)
    requires Message(a) == Message(b)
    ensures a == b
  {
    MessageParses(a);
    MessageParses(b);
  }

  /** A connection that was sent the draft messages of `ids`, in order, reads
      them as those ids' draft events, in the same order. */
  lemma StreamOfDrafts(ids: seq<int>)
    ensures Parse(Join(seq(|ids|, i requires 0 <= i < |ids| => Message(ids[i]))))
         == seq(|ids|, i requires 0 <= i < |ids| => Event(DRAFT, Payload(ids[i])))
  {
    var ms := seq(|ids|, i requires 0 <= i < |ids| => Message(ids[i]));
    var evs := seq(|ids|, i requires 0 <= i < |ids| => Event(DRAFT, Payload(ids[i])));
    forall i | 0 <= i < |evs|
      ensures evs[i].kind != "" && SingleLine(evs[i].kind) && SingleLine(evs[i].data)
      ensures ms[i] == Format(evs[i].kind, evs[i].data)
    {
      PayloadSingleLine(ids[i]);
    }
    JoinParses(ms, evs);
  }
}
