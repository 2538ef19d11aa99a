/** What a reader finds in the JSON-RPC body of a built request when it looks members up by name. */
module HttpBody {
  import Base64
  import opened Common
  import opened Http
  import opened HttpMessages
  import opened HttpBuild
  import opened HttpParse
  import opened Text

  const QUOTE: char := '\"'

  /** The text after the first occurrence of `key`, empty if there is none. */
  function After(s: Bytes, key: Bytes): (rest: Bytes)
  {
    if |s| < |key| then "" else if s[..|key|] == key then s[|key|..] else if s == "" then "" else After(s[1..], key)
  }

  /** A member name in its quotes, with the colon. */
  function Key(name: Bytes): (key: Bytes) { [QUOTE] + name + [QUOTE] + ":" }

  function Digits(s: Bytes): (digits: Bytes)
    ensures AllDigits(digits)
  {
    if s == "" || !IsDigit(s[0]) then "" else [s[0]] + Digits(s[1..])
  }

  /** The number after the first occurrence of a member name. */
  function NumberOf(s: Bytes, name: Bytes): (n: nat) { DigitsValue(Digits(After(s, Key(name)))) }

  /** The string after the first occurrence of a member name, up to the closing quote. */
  function StringOf(s: Bytes, name: Bytes): (text: Bytes)
  {
    var rest := After(s, Key(name));
    if rest == "" || rest[0] != QUOTE then "" else rest[1..][..IndexOf(rest[1..], QUOTE)]
  }

  // ------------------------------------------------------------ quoted strings and what is between them

  predicate NoQuote(s: Bytes) { forall i :: 0 <= i < |s| ==> s[i] != QUOTE }

  /** A quoted string and the text behind it, up to the next quote. */
  datatype Item = Item(quoted: Bytes, plain: Bytes)

  predicate Clean(item: Item) { NoQuote(item.quoted) && NoQuote(item.plain) }

  predicate AllClean(items: seq<Item>) { forall i :: 0 <= i < |items| ==> Clean(items[i]) }

  function ItemText(item: Item): (s: Bytes)
    ensures s != "" && s[0] == QUOTE
  {
    [QUOTE] + item.quoted + [QUOTE] + item.plain
  }

  function Written(items: seq<Item>): (s: Bytes)
    ensures s != "" ==> s[0] == QUOTE
  {
    if items == [] then "" else ItemText(items[0]) + Written(items[1..])
  }

  lemma {:induction false} WrittenAppend(a: seq<Item>, b: seq<Item>)
    ensures Written(a + b) == Written(a) + Written(b)
  {
    if a == [] {
      assert a + b == b;
    } else {
      assert (a + b)[1..] == a[1..] + b && (a + b)[0] == a[0];
      WrittenAppend(a[1..], b);
      assert Written(a + b) == ItemText(a[0]) + (Written(a[1..]) + Written(b));
    }
  }

  // ------------------------------------------------------------ looking a name up

  /** No name begins outside a quote. */
  lemma {:induction false} SkipText(text: Bytes, s: Bytes, name: Bytes)
    requires NoQuote(text)
    ensures After(text + s, Key(name)) == After(s, Key(name))
  {
    if text != "" {
      var t := text + s;
      assert t[0] == text[0] && t[1..] == text[1..] + s;
      SkipOne(t, Key(name));
      SkipText(text[1..], s, name);
    } else {
      assert text + s == s;
    }
  }

  lemma {:induction false} SkipOne(s: Bytes, key: Bytes)
    requires s != "" && key != "" && !(key <= s)
    ensures After(s, key) == After(s[1..], key)
  {
  }

  /** What is between two quotes is not the name, or no colon follows. */
  lemma {:induction false} SkipQuoted(text: Bytes, rest: Bytes, name: Bytes)
    requires NoQuote(text) && NoQuote(name) && (rest != "" ==> rest[0] == QUOTE)
    requires text != name || |rest| < 2 || rest[1] != ':'
    ensures After([QUOTE] + (text + rest), Key(name)) == After(rest, Key(name))
  {
    var s := [QUOTE] + (text + rest);
    NotTheKey(text, rest, name);
    assert s[1..] == text + rest;
    SkipOne(s, Key(name));
    SkipText(text, rest, name);
  }

  lemma {:induction false} NotTheKey(text: Bytes, rest: Bytes, name: Bytes)
    requires NoQuote(text) && NoQuote(name) && (rest != "" ==> rest[0] == QUOTE)
    requires text != name || |rest| < 2 || rest[1] != ':'
    ensures !(Key(name) <= [QUOTE] + (text + rest))
  {
    var key, s := Key(name), [QUOTE] + (text + rest);
    if |text| < |name| {
      assert key[1 + |text|] == name[|text|];
      assert |s| > 1 + |text| ==> s[1 + |text|] == rest[0];
    } else if |name| < |text| {
      assert key[1 + |name|] == QUOTE && s[1 + |name|] == text[|name|];
    } else if text != name {
      var i :| 0 <= i < |name| && text[i] != name[i];
      assert key[1 + i] == name[i] && s[1 + i] == text[i];
    } else {
      assert key[|name| + 2] == ':';
      assert |s| > |name| + 2 ==> s[|name| + 2] == rest[1];
    }
  }

  /** An item that does not have the name, or has it without a colon. */
  predicate Passes(item: Item, name: Bytes)
  {
    (item.quoted != name || item.plain == "" || item.plain[0] != ':') && item.plain != name
  }

  lemma {:induction false} SkipItem(item: Item, rest: Bytes, name: Bytes)
    requires Clean(item) && NoQuote(name) && Passes(item, name) && (rest != "" ==> rest[0] == QUOTE)
    ensures After(ItemText(item) + rest, Key(name)) == After(rest, Key(name))
  {
    var tail := [QUOTE] + (item.plain + rest);
    assert ItemText(item) + rest == [QUOTE] + (item.quoted + tail);
    SkipQuoted(item.quoted, tail, name);
    SkipQuoted(item.plain, rest, name);
  }

  ghost predicate AllPass(items: seq<Item>, n: nat, name: Bytes)
    requires n <= |items|
  {
    forall i: nat :: i < n ==> Passes(items[i], name)
  }

  lemma {:induction false} SkipItems(items: seq<Item>, n: nat, name: Bytes)
    requires n <= |items| && AllClean(items) && NoQuote(name) && AllPass(items, n, name)
    ensures After(Written(items), Key(name)) == After(Written(items[n..]), Key(name))
    decreases n
  {
    if n == 0 {
      assert items[0..] == items;
    } else {
      SkipItem(items[0], Written(items[1..]), name);
      SkipItems(items[1..], n - 1, name);
      assert items[1..][n - 1..] == items[n..];
    }
  }

  lemma {:induction false} FoundHere(name: Bytes, rest: Bytes)
    ensures After(Key(name) + rest, Key(name)) == rest
  {
    var s := Key(name) + rest;
    assert s[..|Key(name)|] == Key(name) && s[|Key(name)|..] == rest;
  }

  /** A name is found in the first item that has it with a colon behind it. */
  lemma {:induction false} FindsMember(start: Bytes, items: seq<Item>, j: nat, name: Bytes, value: Bytes)
    requires j < |items| && AllClean(items) && AllPass(items, j, name) && NoQuote(start)
    requires items[j] == Item(name, ":" + value)
    ensures After(start + Written(items), Key(name)) == value + Written(items[j + 1..])
  {
    SkipText(start, Written(items), name);
    SkipItems(items, j, name);
    assert Clean(items[j]) && items[j..][0] == items[j] && items[j..][1..] == items[j + 1..];
    MemberText(name, value, Written(items[j + 1..]));
    FoundHere(name, value + Written(items[j + 1..]));
  }

  lemma {:induction false} MemberText(name: Bytes, value: Bytes, rest: Bytes)
    ensures ItemText(Item(name, ":" + value)) + rest == Key(name) + (value + rest)
  {
  }

  lemma {:induction false} NumberFound(start: Bytes, items: seq<Item>, j: nat, name: Bytes, n: nat, end: Bytes)
    requires j < |items| && AllClean(items) && AllPass(items, j, name) && NoQuote(start)
    requires items[j] == Item(name, ":" + (Decimal(n) + end)) && end != "" && !IsDigit(end[0])
    ensures NumberOf(start + Written(items), name) == n
  {
    var rest := Written(items[j + 1..]);
    FindsMember(start, items, j, name, Decimal(n) + end);
    assert Decimal(n) + end + rest == Decimal(n) + (end + rest);
    DigitsOfDecimal(Decimal(n), end + rest);
    DecimalValue(n);
  }

  lemma {:induction false} DigitsOfDecimal(digits: Bytes, more: Bytes)
    requires AllDigits(digits) && more != "" && !IsDigit(more[0])
    ensures Digits(digits + more) == digits
  {
    if digits == "" {
      assert digits + more == more;
    } else {
      var s := digits + more;
      assert s[0] == digits[0] && s[1..] == digits[1..] + more;
      DigitsOfDecimal(digits[1..], more);
    }
  }

  lemma {:induction false} StringFound(start: Bytes, items: seq<Item>, j: nat, name: Bytes, text: Bytes)
    requires j + 1 < |items| && AllClean(items) && AllPass(items, j, name) && NoQuote(start)
    requires items[j] == Item(name, ":") && items[j + 1].quoted == text
    ensures StringOf(start + Written(items), name) == text
  {
    FindsMember(start, items, j, name, "");
    var rest := items[j + 1..];
    assert rest[0] == items[j + 1] && "" + Written(rest) == Written(rest);
    FirstQuoted(rest[0], Written(rest[1..]));
  }

  lemma {:induction false} FirstQuoted(item: Item, more: Bytes)
    requires Clean(item)
    ensures var rest := (ItemText(item) + more)[1..]; rest[..IndexOf(rest, QUOTE)] == item.quoted
  {
    var rest := (ItemText(item) + more)[1..];
    assert rest == item.quoted + [QUOTE] + (item.plain + more);
    UpToQuote(item.quoted, item.plain + more);
  }

  lemma {:induction false} UpToQuote(text: Bytes, more: Bytes)
    requires NoQuote(text)
    ensures var s := text + [QUOTE] + more; s[..IndexOf(s, QUOTE)] == text
  {
    var s := text + [QUOTE] + more;
    IndexOfIs(s, QUOTE, |text|);
  }

  // ------------------------------------------------------------ the body of a request

  /** The body after its opening brace. */
  function Items(id: Bytes, tx: Bytes, fanout: Bytes, slot: Bytes): (items: seq<Item>)
  {
    [Item("jsonrpc", ":"), Item("2.0", ","), Item("id", ":" + (id + ",")),
     Item("method", ":"), Item("sendTransaction", ","), Item("params", ":{"), Item("transaction", ":"), Item(tx, ","),
     Item("fanout", ":" + (fanout + ",")), Item("target_slot", ":" + (slot + "}}"))]
  }

  lemma {:induction false} BodyItems(requestId: nat, tx: seq<Byte>, fanout: nat, targetSlot: nat)
    ensures RequestBody(requestId, tx, fanout, targetSlot)
         == "{" + Written(Items(Decimal(requestId), Base64.Encoded(tx), Decimal(fanout), Decimal(targetSlot)))
  {
    var id, text, fan, slot := Decimal(requestId), Base64.Encoded(tx), Decimal(fanout), Decimal(targetSlot);
    var items := Items(id, text, fan, slot);
    var a, b, c := ItemsSplit(id, text, fan, slot);
    StartItems(id, a);
    MiddleItems(text, b);
    EndItems(fan, slot, c);
    ThreeParts(BODY_START, id, BODY_TX, text, BODY_FANOUT + fan + BODY_SLOT + slot + BODY_END,
        Written(a), Written(b), Written(c));
  }

  lemma {:induction false} ItemsSplit(id: Bytes, tx: Bytes, fanout: Bytes, slot: Bytes)
      returns (a: seq<Item>, b: seq<Item>, c: seq<Item>)
    ensures a == [Item("jsonrpc", ":"), Item("2.0", ","), Item("id", ":" + (id + ","))]
    ensures b == [Item("method", ":"), Item("sendTransaction", ","), Item("params", ":{"), Item("transaction", ":"),
                  Item(tx, ",")]
    ensures c == [Item("fanout", ":" + (fanout + ",")), Item("target_slot", ":" + (slot + "}}"))]
    ensures Written(Items(id, tx, fanout, slot)) == Written(a) + Written(b) + Written(c)
  {
    a := [Item("jsonrpc", ":"), Item("2.0", ","), Item("id", ":" + (id + ","))];
    b := [Item("method", ":"), Item("sendTransaction", ","), Item("params", ":{"), Item("transaction", ":"),
          Item(tx, ",")];
    c := [Item("fanout", ":" + (fanout + ",")), Item("target_slot", ":" + (slot + "}}"))];
    assert a + b + c == Items(id, tx, fanout, slot);
    WrittenAppend(a, b);
    WrittenAppend(a + b, c);
  }

  lemma {:induction false} ThreeParts(start: Bytes, id: Bytes, middle: Bytes, tx: Bytes, end: Bytes, a: Bytes, b: Bytes,
      c: Bytes)
    requires "{" + a == start + id + "," && "," + b == middle + tx + "\"," && "\"," + c == end
    ensures "{" + (a + b + c) == start + id + middle + tx + end
  {
    Joined("{", a, b, c);
    Moved(start + id, ",", b, c);
    Moved(start + id + middle + tx, "\",", "", c);
    Grouped(start + id, middle, tx, "\",");
  }

  lemma {:induction false} Joined(x: Bytes, a: Bytes, b: Bytes, c: Bytes)
    ensures x + (a + b + c) == (x + a) + b + c
  {
  }

  lemma {:induction false} Moved(x: Bytes, y: Bytes, b: Bytes, c: Bytes)
    ensures (x + y) + b + c == x + (y + b) + c == x + ((y + b) + c)
    ensures y + "" == y
  {
    assert y + "" == y;
  }

  lemma {:induction false} Grouped(x: Bytes, a: Bytes, b: Bytes, c: Bytes)
    ensures x + (a + b + c) == x + a + b + c
  {
  }

  lemma {:induction false} OneItem(a: Item)
    ensures Written([a]) == ItemText(a)
  {
    assert [a][1..] == [];
  }

  lemma {:induction false} TwoItems(a: Item, b: Item)
    ensures Written([a, b]) == ItemText(a) + ItemText(b)
  {
    WrittenAppend([a], [b]);
    OneItem(a);
    OneItem(b);
    assert [a] + [b] == [a, b];
  }

  lemma {:induction false} StartItems(id: Bytes, items: seq<Item>)
    requires items == [Item("jsonrpc", ":"), Item("2.0", ","), Item("id", ":" + (id + ","))]
    ensures "{" + Written(items) == BODY_START + id + ","
  {
    var a, b, c := items[0], items[1], items[2];
    assert [a, b] + [c] == items;
    WrittenAppend([a, b], [c]);
    TwoItems(a, b);
    OneItem(c);
    VersionText(a, b);
    assert ItemText(c) == "\"id\":" + (id + ",");
    assert "{\"jsonrpc\":\"2.0\"," + "\"id\":" == BODY_START;
    Regroup("{", ItemText(a) + ItemText(b), "\"id\":", id + ",");
    assert BODY_START + (id + ",") == BODY_START + id + ",";
  }

  lemma {:induction false} Regroup(a: Bytes, b: Bytes, c: Bytes, d: Bytes)
    ensures a + (b + (c + d)) == ((a + b) + c) + d
  {
  }

  lemma {:induction false} VersionText(a: Item, b: Item)
    requires a == Item("jsonrpc", ":") && b == Item("2.0", ",")
    ensures "{" + (ItemText(a) + ItemText(b)) == "{\"jsonrpc\":\"2.0\","
  {
  }

  lemma {:induction false} MethodText(a: Item, b: Item)
    requires a == Item("method", ":") && b == Item("sendTransaction", ",")
    ensures "," + (ItemText(a) + ItemText(b)) == ",\"method\":\"sendTransaction\","
  {
  }

  lemma {:induction false} ParamsText(c: Item, d: Item)
    requires c == Item("params", ":{") && d == Item("transaction", ":")
    ensures ItemText(c) + ItemText(d) == "\"params\":{\"transaction\":"
  {
  }

  lemma {:induction false} MiddleText(a: Item, b: Item, c: Item, d: Item)
    requires a == Item("method", ":") && b == Item("sendTransaction", ",")
    requires c == Item("params", ":{") && d == Item("transaction", ":")
    ensures "," + (ItemText(a) + ItemText(b)) + (ItemText(c) + ItemText(d)) + [QUOTE] == BODY_TX
  {
    MethodText(a, b);
    ParamsText(c, d);
    MiddleLiteral("," + (ItemText(a) + ItemText(b)), ItemText(c) + ItemText(d));
  }

  lemma {:induction false} MiddleLiteral(a: Bytes, b: Bytes)
    requires a == ",\"method\":\"sendTransaction\"," && b == "\"params\":{\"transaction\":"
    ensures a + b + [QUOTE] == BODY_TX
  {
  }

  lemma {:induction false} MiddleItems(tx: Bytes, items: seq<Item>)
    requires items == [Item("method", ":"), Item("sendTransaction", ","), Item("params", ":{"),
                       Item("transaction", ":"), Item(tx, ",")]
    ensures "," + Written(items) == BODY_TX + tx + "\","
  {
    var a, b, c, d, e := items[0], items[1], items[2], items[3], items[4];
    assert [a, b] + [c, d] + [e] == items;
    WrittenAppend([a, b], [c, d]);
    WrittenAppend([a, b] + [c, d], [e]);
    TwoItems(a, b);
    TwoItems(c, d);
    OneItem(e);
    MiddleText(a, b, c, d);
    assert ItemText(e) == [QUOTE] + (tx + "\",");
    MiddleGlue(ItemText(a) + ItemText(b), ItemText(c) + ItemText(d), tx);
  }

  lemma {:induction false} MiddleGlue(a: Bytes, b: Bytes, tx: Bytes)
    ensures "," + (a + b + ([QUOTE] + (tx + "\","))) == ("," + a + b + [QUOTE]) + tx + "\","
  {
  }

  lemma {:induction false} EndItems(fanout: Bytes, slot: Bytes, items: seq<Item>)
    requires items == [Item("fanout", ":" + (fanout + ",")), Item("target_slot", ":" + (slot + "}}"))]
    ensures "\"," + Written(items) == BODY_FANOUT + fanout + BODY_SLOT + slot + BODY_END
  {
    TwoItems(items[0], items[1]);
    assert "\"," + ItemText(items[0]) == BODY_FANOUT + (fanout + ",");
    assert "," + ItemText(items[1]) == BODY_SLOT + (slot + BODY_END);
    EndGlue(BODY_FANOUT, fanout, BODY_SLOT, slot, BODY_END, ItemText(items[0]), ItemText(items[1]));
  }

  lemma {:induction false} EndGlue(start: Bytes, fanout: Bytes, middle: Bytes, slot: Bytes, end: Bytes, a: Bytes,
      b: Bytes)
    requires "\"," + a == start + (fanout + ",") && "," + b == middle + (slot + end)
    ensures "\"," + (a + b) == start + fanout + middle + slot + end
  {
    assert "\"," + (a + b) == ("\"," + a) + b;
    assert start + (fanout + ",") + b == start + fanout + ("," + b);
  }

  lemma {:induction false} ItemsClean(requestId: nat, tx: seq<Byte>, fanout: nat, targetSlot: nat)
    ensures AllClean(Items(Decimal(requestId), Base64.Encoded(tx), Decimal(fanout), Decimal(targetSlot)))
  {
    var id, text, fan, slot := Decimal(requestId), Base64.Encoded(tx), Decimal(fanout), Decimal(targetSlot);
    EncodedClean(tx);
    NumberClean(id, ",");
    NumberClean(fan, ",");
    NumberClean(slot, "}}");
    NamesClean();
    PlainClean();
    var items := Items(id, text, fan, slot);
    forall i | 0 <= i < |items| ensures Clean(items[i]) {
    }
  }

  lemma {:induction false} NamesClean()
    ensures NoQuote("jsonrpc") && NoQuote("2.0") && NoQuote("id") && NoQuote("method") && NoQuote("sendTransaction")
    ensures NoQuote("params") && NoQuote("transaction") && NoQuote("fanout") && NoQuote("target_slot")
  {
  }

  lemma {:induction false} PlainClean()
    ensures NoQuote(":") && NoQuote(",") && NoQuote(":{")
  {
  }

  lemma {:induction false} NumberClean(digits: Bytes, end: Bytes)
    requires AllDigits(digits) && NoQuote(end)
    ensures NoQuote(":" + (digits + end))
  {
  }

  /** The base64 alphabet has no quote. */
  lemma {:induction false} EncodedClean(tx: seq<Byte>)
    ensures NoQuote(Base64.Encoded(tx))
  {
    Base64.EncodedIsCanonical(tx);
  }

  /** Texts that differ in their length or their first two characters. */
  predicate Differ(a: Bytes, b: Bytes)
  {
    |a| != |b| || (|a| >= 2 && (a[0] != b[0] || a[1] != b[1]))
  }

  /** Each name is passed over by the items in front of it. */
  lemma {:induction false} NamesPass(id: Bytes, tx: Bytes, fanout: Bytes, slot: Bytes, n: nat, name: Bytes)
    requires n < 10 && name == Items(id, tx, fanout, slot)[n].quoted && n in {0, 2, 3, 6, 8, 9}
    ensures AllPass(Items(id, tx, fanout, slot), n, name)
  {
    var items := Items(id, tx, fanout, slot);
    forall i: nat | i < n ensures Passes(items[i], name) {
      assert items[i].plain[0] != name[0];
      if i != 7 { assert Differ(items[i].quoted, name); }
    }
  }

  /** Main theorem. In the body the server parses out of a built request, looking each member up by its name gives what
    * the client put in: the request id, the transaction, the fanout and the target slot.
    */
  lemma {:induction false} MembersArrive(host: Bytes, requestId: nat, tx: seq<Byte>, fanout: nat, targetSlot: nat)
    requires NoBreaks(host) && Utf8(host) && |RequestBody(requestId, tx, fanout, targetSlot)| < U64
    ensures var sent := RequestBody(requestId, tx, fanout, targetSlot);
            var parsed := Parsed(Message(RequestLines(host, |sent|), sent));
            && parsed.Ok? && parsed.value.verb == "POST" && parsed.value.path == "/"
            && var body := parsed.value.body;
               && StringOf(body, "jsonrpc") == "2.0" && StringOf(body, "method") == "sendTransaction"
               && NumberOf(body, "id") == requestId && NumberOf(body, "fanout") == fanout
               && NumberOf(body, "target_slot") == targetSlot
               && Base64.Decoded(StringOf(body, "transaction")) == Base64.Ok(tx)
  {
    RequestRoundTrip(host, RequestBody(requestId, tx, fanout, targetSlot));
    StringsFound(requestId, tx, fanout, targetSlot);
    NumbersFound(requestId, tx, fanout, targetSlot);
    Base64.RoundTrip(tx);
  }

  lemma {:induction false} StringsFound(requestId: nat, tx: seq<Byte>, fanout: nat, targetSlot: nat)
    ensures var body := RequestBody(requestId, tx, fanout, targetSlot);
            && StringOf(body, "jsonrpc") == "2.0" && StringOf(body, "method") == "sendTransaction"
            && StringOf(body, "transaction") == Base64.Encoded(tx)
  {
    var id, text, fan, slot := Decimal(requestId), Base64.Encoded(tx), Decimal(fanout), Decimal(targetSlot);
    BodyItems(requestId, tx, fanout, targetSlot);
    ItemsClean(requestId, tx, fanout, targetSlot);
    var items := Items(id, text, fan, slot);
    NamesPass(id, text, fan, slot, 0, "jsonrpc");
    StringFound("{", items, 0, "jsonrpc", "2.0");
    NamesPass(id, text, fan, slot, 3, "method");
    StringFound("{", items, 3, "method", "sendTransaction");
    NamesPass(id, text, fan, slot, 6, "transaction");
    StringFound("{", items, 6, "transaction", text);
  }

  lemma {:induction false} NumbersFound(requestId: nat, tx: seq<Byte>, fanout: nat, targetSlot: nat)
    ensures var body := RequestBody(requestId, tx, fanout, targetSlot);
            && NumberOf(body, "id") == requestId && NumberOf(body, "fanout") == fanout
            && NumberOf(body, "target_slot") == targetSlot
  {
    var id, text, fan, slot := Decimal(requestId), Base64.Encoded(tx), Decimal(fanout), Decimal(targetSlot);
    BodyItems(requestId, tx, fanout, targetSlot);
    ItemsClean(requestId, tx, fanout, targetSlot);
    var items := Items(id, text, fan, slot);
    NamesPass(id, text, fan, slot, 2, "id");
    NumberFound("{", items, 2, "id", requestId, ",");
    NamesPass(id, text, fan, slot, 8, "fanout");
    NumberFound("{", items, 8, "fanout", fanout, ",");
    NamesPass(id, text, fan, slot, 9, "target_slot");
    NumberFound("{", items, 9, "target_slot", targetSlot, "}}");
  }
}
