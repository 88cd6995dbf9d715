/**
 * The outbound message envelopes built by `get_text_input`, `get_interactive_button_input`
 * and `get_interactive_list_input`, as structures before they are serialised to JSON.
 */
module WhatsAppMessages {

  /** `TextMessage(to=recipient, text={"body": text})`. */
  datatype TextMessage = TextMessage(to: string, body: string)

  /** `Reply(id, title)` and `Button(type="reply", reply=...)`. */
  datatype Reply = Reply(id: string, title: string)
  datatype Button = Button(kind: string, reply: Reply)

  /** A row of an interactive list and the section that holds the rows. */
  datatype Row = Row(id: string, title: string)
  datatype Section = Section(title: string, rows: seq<Row>)

  /** The `interactive` part: a button panel or a list whose sections open from a button. */
  datatype Interactive =
    | ButtonPanel(body: string, footer: string, buttons: seq<Button>)
    | ListPanel(body: string, footer: string, button: string, sections: seq<Section>)

  /** `InteractiveMessage(to=recipient, interactive=...)`. */
  datatype InteractiveMessage = InteractiveMessage(to: string, interactive: Interactive)

  const ButtonFooter: string := "This is an automatic message \U{1F992}"
  const ListFooter: string := "This is an automated message \U{1F992}"
  const OptionsLabel: string := "Options"

  // ---------------------------------------------------------------------------------------
  // Option identifiers `option-{i}`

  function DigitChar(d: nat): (c: char)
    requires d < 10
    ensures '0' <= c <= '9'
  {
    "0123456789"[d]
  }

  /** The value of a decimal digit. */
  function DigitValue(c: char): (d: nat)
    requires '0' <= c <= '9'
    ensures d < 10
  {
    (c as int - '0' as int) as nat
  }

  /** Python's `str(n)` for a non-negative integer. */
  function Decimal(n: nat): (s: string)
    ensures |s| > 0
    ensures forall m :: 0 <= m < |s| ==> '0' <= s[m] <= '9'
  {
    if n < 10 then [DigitChar(n)] else Decimal(n / 10) + [DigitChar(n % 10)]
  }

  /** Reading a string of decimal digits back as a number. */
  ghost function DecimalValue(s: string): nat
    requires forall m :: 0 <= m < |s| ==> '0' <= s[m] <= '9'
  {
    if s == [] then 0 else DecimalValue(s[..|s| - 1]) * 10 + DigitValue(s[|s| - 1])
  }

  /** `str` is read back exactly, so it is injective. */
  lemma {:induction false} DecimalRoundTrip(n: nat)
    ensures DecimalValue(Decimal(n)) == n
  {
    var s := Decimal(n);
    if n < 10 {
      assert DigitValue(DigitChar(n)) == n by {
        assert "0123456789"[n] as int == '0' as int + n;
      }
    } else {
      DecimalRoundTrip(n / 10);
      assert s[..|s| - 1] == Decimal(n / 10);
      var d := n % 10;
      assert DigitValue(DigitChar(d)) == d by {
        assert "0123456789"[d] as int == '0' as int + d;
      }
    }
  }

  /** `f"option-{i}"`. */
  function OptionId(i: nat): string
  {
    "option-" + Decimal(i)
  }

  /** Different positions get different identifiers. */
  lemma OptionIdInjective(i: nat, j: nat)
    requires OptionId(i) == OptionId(j)
    ensures i == j
  {
    assert Decimal(i) == OptionId(i)[7..];
    assert Decimal(j) == OptionId(j)[7..];
    DecimalRoundTrip(i);
    DecimalRoundTrip(j);
  }

  // ---------------------------------------------------------------------------------------
  // The builders

  /** `get_text_input(recipient, text)`: recipient and body are carried through unchanged. */
  function TextInput(recipient: string, text: string): (m: TextMessage)
    ensures m.to == recipient && m.body == text
  {
    TextMessage(recipient, text)
  }

  /** `get_interactive_button_input(recipient, text, options)`. */
  function ButtonInput(recipient: string, text: string, options: seq<string>): (m: InteractiveMessage)
    ensures m.to == recipient && m.interactive.ButtonPanel?
    ensures m.interactive.body == text && m.interactive.footer == ButtonFooter
    // one reply button per option, in order, titled by the option
    ensures |m.interactive.buttons| == |options|
    ensures forall i :: 0 <= i < |options| ==>
              m.interactive.buttons[i] == Button("reply", Reply(OptionId(i), options[i]))
    // so no two buttons share an id
    ensures forall i, j :: 0 <= i < j < |options| ==>
              m.interactive.buttons[i].reply.id != m.interactive.buttons[j].reply.id
  {
    var buttons := seq(|options|, i requires 0 <= i < |options| => Button("reply", Reply(OptionId(i), options[i])));
    forall i, j | 0 <= i < j < |options| ensures buttons[i].reply.id != buttons[j].reply.id {
      if OptionId(i) == OptionId(j) {
        OptionIdInjective(i, j);
      }
    }
    InteractiveMessage(recipient, ButtonPanel(text, ButtonFooter, buttons))
  }

  /** `get_interactive_list_input(recipient, text, options, title="Options")`. */
  function ListInput(recipient: string, text: string, options: seq<string>, title: string := "Options")
    : (m: InteractiveMessage)
    ensures m.to == recipient && m.interactive.ListPanel?
    ensures m.interactive.body == text && m.interactive.footer == ListFooter
    ensures m.interactive.button == OptionsLabel
    // exactly one section, titled `title`, with one row per option in order
    ensures |m.interactive.sections| == 1 && m.interactive.sections[0].title == title
    ensures |m.interactive.sections[0].rows| == |options|
    ensures forall i :: 0 <= i < |options| ==>
              m.interactive.sections[0].rows[i] == Row(OptionId(i), options[i])
    ensures forall i, j :: 0 <= i < j < |options| ==>
              m.interactive.sections[0].rows[i].id != m.interactive.sections[0].rows[j].id
  {
    var rows := seq(|options|, i requires 0 <= i < |options| => Row(OptionId(i), options[i]));
    forall i, j | 0 <= i < j < |options| ensures rows[i].id != rows[j].id {
      if OptionId(i) == OptionId(j) {
        OptionIdInjective(i, j);
      }
    }
    InteractiveMessage(recipient, ListPanel(text, ListFooter, OptionsLabel, [Section(title, rows)]))
  }
}
