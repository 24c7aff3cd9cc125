/**
 * The expense-splitting page: collect the participants, check the input,
 * give each participant the balance of what they paid against an equal
 * share, and build a WhatsApp message and link for those with a phone.
 *
 * Amounts are exact reals. The two places where the page depends on
 * floating point are parameters: `round2` stands for `round(x, 2)`, and
 * `show` for the text Python prints for a float.
 */
module Splitwise {

  datatype Participant = Participant(name: string, contributed: real, phone: string)

  datatype Row = Row(name: string, contributed: real, balance: real, phone: string)

  datatype Message = Message(name: string, text: string, link: string)

  datatype Outcome = InvalidInput | Split(rows: seq<Row>, messages: seq<Message>)

  // ---------------------------------------------------------------------
  // Participants
  // ---------------------------------------------------------------------

  /**
   * One entry per row of input widgets, in order; `entry(i)` is what the
   * widgets of row i hold. A count below one gives no rows.
   */
  method CollectParticipants(numPeople: int, entry: nat -> Participant) returns (participants: seq<Participant>)
    ensures |participants| == if numPeople > 0 then numPeople else 0
    ensures forall i :: 0 <= i < |participants| ==> participants[i] == entry(i)
  {
    participants := [];
    var i := 0;
    while i < numPeople
      invariant 0 <= i && |participants| == i
      invariant i <= if numPeople > 0 then numPeople else 0
      invariant forall k :: 0 <= k < i ==> participants[k] == entry(k)
    {
      participants := participants + [entry(i)];
      i := i + 1;
    }
  }

  // ---------------------------------------------------------------------
  // Settlement
  // ---------------------------------------------------------------------

  datatype Settlement = Owe(amount: real) | GetBack(amount: real) | Settled

  /** A negative balance owes its absolute value, a positive one gets it back. */
  function SettlementOf(balance: real): (s: Settlement)
    ensures s.Owe? <==> balance < 0.0
    ensures s.GetBack? <==> balance > 0.0
    ensures s.Settled? <==> balance == 0.0
    ensures !s.Settled? ==> s.amount > 0.0 && (s.amount == balance || s.amount == -balance)
  {
    if balance < 0.0 then Owe(-balance) else if balance > 0.0 then GetBack(balance) else Settled
  }

  /**
   * The message text for one participant: it greets them by name, states
   * the amount and currency when there is something to settle, and ends in
   * the emoji of their settlement.
   */
  function MessageText(name: string, s: Settlement, currency: string, show: real -> string): (text: string)
    ensures "Hey " + name + ", you" <= text
    ensures !s.Settled? ==> Contains(text, show(s.amount) + " " + currency)
    ensures s.Owe? ==> text[|text| - 1] == '\U{1F4B8}'
    ensures s.GetBack? ==> text[|text| - 1] == '\U{1F389}'
    ensures s.Settled? ==> text[|text| - 1] == '\U{2705}'
  {
    match s
    case Owe(amount) =>
      var head, part := "Hey " + name + ", you owe ", show(amount) + " " + currency;
      var text := head + part + " \U{1F4B8}";
      assert part <= text[|head|..];
      text
    case GetBack(amount) =>
      var head, part := "Hey " + name + ", you’ll get back ", show(amount) + " " + currency;
      var text := head + part + " \U{1F389}";
      assert part <= text[|head|..];
      text
    case Settled => "Hey " + name + ", you’re all settled up ✅"
  }

  /** Owing: the text says "you owe" followed by the amount and the currency. */
  lemma OweWording(name: string, amount: real, currency: string, show: real -> string)
    ensures Contains(MessageText(name, Owe(amount), currency, show), "you owe " + (show(amount) + " " + currency))
  {
    var lead, part := "Hey " + name + ", ", show(amount) + " " + currency;
    assert "Hey " + name + ", you owe " == lead + "you owe ";
    assert MessageText(name, Owe(amount), currency, show) == lead + "you owe " + part + " \U{1F4B8}";
    PhraseOccurs(lead, "you owe ", part, " \U{1F4B8}");
  }

  /** Getting back: the text says "you’ll get back" followed by the amount and the currency. */
  lemma GetBackWording(name: string, amount: real, currency: string, show: real -> string)
    ensures Contains(MessageText(name, GetBack(amount), currency, show),
                     "you’ll get back " + (show(amount) + " " + currency))
  {
    var lead, part := "Hey " + name + ", ", show(amount) + " " + currency;
    assert "Hey " + name + ", you’ll get back " == lead + "you’ll get back ";
    assert MessageText(name, GetBack(amount), currency, show) == lead + "you’ll get back " + part + " \U{1F389}";
    PhraseOccurs(lead, "you’ll get back ", part, " \U{1F389}");
  }

  /** Settled: the text says "you’re all settled up". */
  lemma SettledWording(name: string, currency: string, show: real -> string)
    ensures Contains(MessageText(name, Settled, currency, show), "you’re all settled up")
  {
    var lead := "Hey " + name + ", ";
    assert MessageText(name, Settled, currency, show) == lead + "you’re all settled up" + "" + " ✅";
    PhraseOccurs(lead, "you’re all settled up", "", " ✅");
  }

  /** In `lead + verb + part + tail`, both `verb + part` and `part` occur, and `lead` is a prefix. */
  lemma PhraseOccurs(lead: string, verb: string, part: string, tail: string)
    ensures lead <= lead + verb + part + tail
    ensures Contains(lead + verb + part + tail, verb + part)
    ensures Contains(lead + verb + part + tail, part)
  {
    var text := lead + verb + part + tail;
    assert text == lead + (verb + part) + tail;
    assert verb + part <= text[|lead|..];
    assert text == (lead + verb) + part + tail;
    assert part <= text[|lead + verb|..];
  }

  /** `part` occurs in `text`. */
  predicate Contains(text: string, part: string) {
    exists i :: 0 <= i <= |text| && part <= text[i..]
  }

  // ---------------------------------------------------------------------
  // Encoding spaces in the link
  // ---------------------------------------------------------------------

  /** `text.replace(' ', '%20')`: every space becomes `%20`, every other character stays. */
  function EncodeSpaces(text: string): (r: string)
    ensures ' ' !in r
    ensures |r| == |text| + 2 * CountSpaces(text)
  {
    if text == [] then []
    else (if text[0] == ' ' then "%20" else [text[0]]) + EncodeSpaces(text[1..])
  }

  function CountSpaces(text: string): nat {
    if text == [] then 0 else (if text[0] == ' ' then 1 else 0) + CountSpaces(text[1..])
  }

  /** Turns each `%20` back into a space. */
  function DecodeSpaces(text: string): string {
    if text == [] then []
    else if |text| >= 3 && text[0] == '%' && text[1] == '2' && text[2] == '0' then [' '] + DecodeSpaces(text[3..])
    else [text[0]] + DecodeSpaces(text[1..])
  }

  /** For text without `%`, decoding the link text gives the message back. */
  lemma {:induction false} DecodeEncode(text: string)
    requires '%' !in text
    ensures DecodeSpaces(EncodeSpaces(text)) == text
    decreases |text|
  {
    if text != [] {
      var rest := EncodeSpaces(text[1..]);
      assert '%' !in text[1..];
      DecodeEncode(text[1..]);
      if text[0] == ' ' {
        assert ("%20" + rest)[3..] == rest;
      } else {
        var encoded := [text[0]] + rest;
        assert text[0] in text;
        assert encoded[0] == text[0] != '%' && encoded[1..] == rest;
      }
    }
  }

  /** Text without spaces goes into the link unchanged. */
  lemma {:induction false} EncodeWithoutSpaces(text: string)
    requires ' ' !in text
    ensures EncodeSpaces(text) == text
    decreases |text|
  {
    if text != [] {
      assert ' ' !in text[1..];
      EncodeWithoutSpaces(text[1..]);
    }
  }

  /** Encoding works character by character: the text of a concatenation is the concatenation of the texts. */
  lemma {:induction false} EncodeAppend(a: string, b: string)
    ensures EncodeSpaces(a + b) == EncodeSpaces(a) + EncodeSpaces(b)
    decreases |a|
  {
    if a == [] {
      assert a + b == b;
    } else {
      assert (a + b)[0] == a[0] && (a + b)[1..] == a[1..] + b;
      EncodeAppend(a[1..], b);
    }
  }

  /** A space becomes `%20`; every other character, `%` included, stays as it is. */
  lemma EncodeOne(c: char)
    ensures EncodeSpaces([c]) == if c == ' ' then "%20" else [c]
  {
  }

  const LinkHead := "https://wa.me/"

  /**
   * The link: the phone after `https://wa.me/`, then `?text=` and the
   * encoded text, which has no spaces and from which a message without `%`
   * is decoded back.
   */
  function WhatsAppLink(phone: string, text: string): (link: string)
    ensures LinkHead + phone + "?text=" <= link
    ensures link[|LinkHead + phone + "?text="|..] == EncodeSpaces(text)
    ensures ' ' !in link[|LinkHead + phone + "?text="|..]
    ensures '%' !in text ==> DecodeSpaces(link[|LinkHead + phone + "?text="|..]) == text
  {
    var head := LinkHead + phone + "?text=";
    var link := head + EncodeSpaces(text);
    assert link[|head|..] == EncodeSpaces(text);
    if '%' !in text then DecodeEncode(text); link else link
  }

  // ---------------------------------------------------------------------
  // The split
  // ---------------------------------------------------------------------

  /** The row of one participant: name, payment and phone as entered, and the rounded balance. */
  function RowOf(p: Participant, share: real, round2: real -> real): (row: Row)
    ensures row.name == p.name && row.contributed == p.contributed && row.phone == p.phone
    ensures row.balance == round2(p.contributed - share)
  {
    Row(p.name, p.contributed, round2(p.contributed - share), p.phone)
  }

  /**
   * The message of one row: addressed to the row's name, with a link that
   * opens a chat with the row's phone and carries the encoded text.
   */
  function MessageOf(row: Row, currency: string, show: real -> string): (m: Message)
    ensures m.name == row.name
    ensures LinkHead + row.phone + "?text=" <= m.link
    ensures m.link[|LinkHead + row.phone + "?text="|..] == EncodeSpaces(m.text)
    ensures row.balance != 0.0 ==> Contains(m.text, show(SettlementOf(row.balance).amount) + " " + currency)
  {
    var text := MessageText(row.name, SettlementOf(row.balance), currency, show);
    Message(row.name, text, WhatsAppLink(row.phone, text))
  }

  /** The messages: one per row with a phone, in row order. */
  function MessagesOf(rows: seq<Row>, currency: string, show: real -> string): (ms: seq<Message>)
    ensures |ms| <= |rows|
  {
    if rows == [] then []
    else
      var init := MessagesOf(rows[..|rows| - 1], currency, show);
      var row := rows[|rows| - 1];
      if row.phone != "" then init + [MessageOf(row, currency, show)] else init
  }

  /** Rows without a phone get no message. */
  lemma {:induction false} NoPhoneNoMessages(rows: seq<Row>, currency: string, show: real -> string)
    requires forall i :: 0 <= i < |rows| ==> rows[i].phone == ""
    ensures MessagesOf(rows, currency, show) == []
    decreases |rows|
  {
    if rows != [] {
      NoPhoneNoMessages(rows[..|rows| - 1], currency, show);
    }
  }

  /** Every row with a phone gets exactly one message. */
  lemma {:induction false} MessagesCountPhones(rows: seq<Row>, currency: string, show: real -> string)
    ensures |MessagesOf(rows, currency, show)| == |PhoneRows(rows)|
    ensures forall k :: 0 <= k < |PhoneRows(rows)| ==>
              MessagesOf(rows, currency, show)[k] == MessageOf(PhoneRows(rows)[k], currency, show)
    decreases |rows|
  {
    if rows != [] {
      var init, last := rows[..|rows| - 1], rows[|rows| - 1];
      MessagesCountPhones(init, currency, show);
      if last.phone != "" {
        assert MessagesOf(rows, currency, show) == MessagesOf(init, currency, show) + [MessageOf(last, currency, show)];
        assert PhoneRows(rows) == PhoneRows(init) + [last];
      } else {
        assert MessagesOf(rows, currency, show) == MessagesOf(init, currency, show);
        assert PhoneRows(rows) == PhoneRows(init);
      }
    }
  }

  /**
   * The rows that have a phone, in order: each row with a phone is kept as
   * often as it occurs, and no other row is.
   */
  function PhoneRows(rows: seq<Row>): (r: seq<Row>)
    ensures forall x :: multiset(r)[x] == if x.phone != "" then multiset(rows)[x] else 0
  {
    if rows == [] then []
    else
      var init, last := rows[..|rows| - 1], rows[|rows| - 1];
      var kept := PhoneRows(init);
      assert rows == init + [last];
      if last.phone != "" then
        assert multiset(kept + [last]) == multiset(kept) + multiset{last};
        kept + [last]
      else kept
  }

  /** Every row with a phone is among the phone rows, and every phone row is a row with a phone. */
  lemma PhoneRowsExactly(rows: seq<Row>)
    ensures forall x :: x in PhoneRows(rows) <==> x in rows && x.phone != ""
  {
    forall x ensures x in PhoneRows(rows) <==> x in rows && x.phone != "" {
      assert x in PhoneRows(rows) <==> multiset(PhoneRows(rows))[x] > 0;
      assert x in rows <==> multiset(rows)[x] > 0;
    }
  }

  /**
   * Order is kept: the phone rows of two tables one after the other are the
   * phone rows of the first, then those of the second.
   */
  lemma {:induction false} PhoneRowsAppend(a: seq<Row>, b: seq<Row>)
    ensures PhoneRows(a + b) == PhoneRows(a) + PhoneRows(b)
    decreases |b|
  {
    if b == [] {
      assert a + b == a;
    } else {
      var init := b[..|b| - 1];
      assert (a + b)[..|a + b| - 1] == a + init;
      PhoneRowsAppend(a, init);
    }
  }

  /**
   * Calculate Split: refuse a non-positive total or head count; otherwise
   * one row per participant, then one message per row with a phone.
   */
  method Calculate(total: real, numPeople: int, participants: seq<Participant>, currency: string,
                   round2: real -> real, show: real -> string)
    returns (outcome: Outcome)
    ensures outcome == InvalidInput <==> total <= 0.0 || numPeople <= 0
    ensures outcome.Split? ==> |outcome.rows| == |participants|
    ensures outcome.Split? ==> forall i :: 0 <= i < |participants| ==>
              outcome.rows[i] == RowOf(participants[i], total / numPeople as real, round2)
    ensures outcome.Split? ==> outcome.messages == MessagesOf(outcome.rows, currency, show)
    ensures outcome.Split? && |participants| == numPeople &&
            (forall i :: 0 <= i < |participants| ==> Unrounded(participants[i], total / numPeople as real, round2)) ==>
              SumBalances(outcome.rows) == SumContributed(participants) - total
  {
    if total <= 0.0 || numPeople <= 0 {
      return InvalidInput;
    }
    var share := total / numPeople as real;
    var rows := [];
    for i := 0 to |participants|
      invariant |rows| == i
      invariant forall k :: 0 <= k < i ==> rows[k] == RowOf(participants[k], share, round2)
    {
      var p := participants[i];
      var balance := round2(p.contributed - share);
      rows := rows + [Row(p.name, p.contributed, balance, p.phone)];
    }
    var messages := [];
    for i := 0 to |rows|
      invariant messages == MessagesOf(rows[..i], currency, show)
    {
      assert rows[..i + 1][..i] == rows[..i];
      var row := rows[i];
      if row.phone != "" {
        var text := MessageText(row.name, SettlementOf(row.balance), currency, show);
        messages := messages + [Message(row.name, text, WhatsAppLink(row.phone, text))];
      }
    }
    assert rows[..|rows|] == rows;
    if |participants| == numPeople && forall i :: 0 <= i < |participants| ==> Unrounded(participants[i], share, round2) {
      RoundedBalancesSum(participants, total, round2, rows);
    }
    outcome := Split(rows, messages);
  }

  // ---------------------------------------------------------------------
  // Fairness of the exact shares
  // ---------------------------------------------------------------------

  function SumContributed(ps: seq<Participant>): real {
    if ps == [] then 0.0 else SumContributed(ps[..|ps| - 1]) + ps[|ps| - 1].contributed
  }

  function SumExactBalances(ps: seq<Participant>, share: real): real {
    if ps == [] then 0.0 else SumExactBalances(ps[..|ps| - 1], share) + (ps[|ps| - 1].contributed - share)
  }

  /**
   * Before rounding, the balances of all participants add up to what they
   * paid minus the total: when the payments cover the bill exactly, what is
   * owed equals what is got back.
   */
  lemma {:induction false} ExactBalancesSum(ps: seq<Participant>, total: real)
    requires |ps| > 0
    ensures SumExactBalances(ps, total / |ps| as real) == SumContributed(ps) - total
  {
    SumBalancesShift(ps, total / |ps| as real);
  }

  lemma {:induction false} SumBalancesShift(ps: seq<Participant>, share: real)
    ensures SumExactBalances(ps, share) == SumContributed(ps) - |ps| as real * share
    decreases |ps|
  {
    if ps != [] {
      SumBalancesShift(ps[..|ps| - 1], share);
    }
  }

  /** The sum of the balances of a table of rows. */
  function SumBalances(rows: seq<Row>): real {
    if rows == [] then 0.0 else SumBalances(rows[..|rows| - 1]) + rows[|rows| - 1].balance
  }

  /** Rounding leaves the exact balance of this participant as it is. */
  predicate Unrounded(p: Participant, share: real, round2: real -> real) {
    round2(p.contributed - share) == p.contributed - share
  }

  /**
   * When rounding changes no balance, the balances of the split's rows add up
   * to what was paid minus the total.
   */
  lemma RoundedBalancesSum(ps: seq<Participant>, total: real, round2: real -> real, rows: seq<Row>)
    requires |ps| > 0 && |rows| == |ps|
    requires forall i :: 0 <= i < |ps| ==> Unrounded(ps[i], total / |ps| as real, round2)
    requires forall i :: 0 <= i < |ps| ==> rows[i] == RowOf(ps[i], total / |ps| as real, round2)
    ensures SumBalances(rows) == SumContributed(ps) - total
  {
    RowBalancesExact(ps, total / |ps| as real, round2, rows);
    ExactBalancesSum(ps, total);
  }

  lemma {:induction false} RowBalancesExact(ps: seq<Participant>, share: real, round2: real -> real, rows: seq<Row>)
    requires |rows| == |ps|
    requires forall i :: 0 <= i < |ps| ==> Unrounded(ps[i], share, round2)
    requires forall i :: 0 <= i < |ps| ==> rows[i] == RowOf(ps[i], share, round2)
    ensures SumBalances(rows) == SumExactBalances(ps, share)
    decreases |ps|
  {
    if ps != [] {
      var n := |ps| - 1;
      assert Unrounded(ps[n], share, round2);
      RowBalancesExact(ps[..n], share, round2, rows[..n]);
    }
  }
}
