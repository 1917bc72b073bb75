/** The heads that send_request and send_response write, and that the parser reads back. */
module HttpPrinter {
  import opened Arith
  import opened HttpSyntax

  /** Key and value, in the order the container lists them. */
  type Field = (string, string)

  // ---------- text ----------

  /** std::to_string */
  function Decimal(n: nat): (s: string)
    ensures |s| > 0
    ensures forall k :: 0 <= k < |s| ==> IsDigit(s[k])
    decreases n
  {
    var last := [('0' as int + n % 10) as char];
    if n < 10 then last else Decimal(n / 10) + last
  }

  predicate AllDigits(digits: string) {
    forall k :: 0 <= k < |digits| ==> IsDigit(digits[k])
  }

  /** The number that digits stand for, the highest first. */
  function DecimalValue(digits: string): nat
    requires AllDigits(digits)
  {
    if |digits| == 0 then 0 else 10 * DecimalValue(digits[..|digits| - 1]) + Digit(digits[|digits| - 1])
  }

  /** Reading a printed number gives it back; only zero begins with a zero. */
  lemma {:induction false} DecimalReads(n: nat)
    ensures DecimalValue(Decimal(n)) == n && (Decimal(n)[0] == '0' ==> n == 0)
  {
    var digits, last := Decimal(n), [('0' as int + n % 10) as char];
    assert Digit(last[0]) == n % 10;
    if n < 10 {
      assert digits[..0] == "";
    } else {
      DecimalReads(n / 10);
      assert digits[..|digits| - 1] == Decimal(n / 10);
    }
  }

  function FieldLine(f: Field): string {
    f.0 + ": " + f.1 + "\r\n"
  }

  function FieldLines(fields: seq<Field>): string {
    if |fields| == 0 then "" else FieldLine(fields[0]) + FieldLines(fields[1..])
  }

  /** Fields without a value are not sent in a request. */
  function WithValue(fields: seq<Field>): seq<Field> {
    if |fields| == 0 then []
    else (if |fields[0].1| > 0 then [fields[0]] else []) + WithValue(fields[1..])
  }

  predicate HasKey(fields: seq<Field>, key: string) {
    exists i :: 0 <= i < |fields| && fields[i].0 == key
  }

  /** The fields of a request: its length is added unless the caller gave one. */
  function RequestFields(fields: seq<Field>, bodySize: nat): seq<Field> {
    WithValue(fields)
    + if bodySize > 0 && !HasKey(fields, "Content-Length") then [("Content-Length", Decimal(bodySize))] else []
  }

  function ResponseFields(fields: seq<Field>, bodySize: nat): seq<Field> {
    fields + if bodySize > 0 then [("Content-Length", Decimal(bodySize))] else []
  }

  function RequestText(verb: string, path: string, fields: seq<Field>, bodySize: nat): string {
    verb + " " + path + " HTTP/1.1\r\n" + FieldLines(RequestFields(fields, bodySize)) + "\r\n"
  }

  function ResponseText(code: nat, text: string, fields: seq<Field>, bodySize: nat): string {
    "HTTP/1.1 " + Decimal(code) + " " + text + "\r\n" + FieldLines(ResponseFields(fields, bodySize)) + "\r\n"
  }

  lemma {:induction false} FieldLinesAppend(a: seq<Field>, b: seq<Field>)
    ensures FieldLines(a + b) == FieldLines(a) + FieldLines(b)
  {
    if |a| == 0 {
      assert a + b == b;
    } else {
      assert (a + b)[1..] == a[1..] + b;
      FieldLinesAppend(a[1..], b);
    }
  }

  lemma {:induction false} WithValueAppend(a: seq<Field>, b: seq<Field>)
    ensures WithValue(a + b) == WithValue(a) + WithValue(b)
  {
    if |a| == 0 {
      assert a + b == b;
    } else {
      assert (a + b)[1..] == a[1..] + b;
      WithValueAppend(a[1..], b);
    }
  }

  /** The fields with a value, each as often as it was given; their order is kept by `WithValueAppend`. */
  lemma {:induction false} WithValueExactly(fields: seq<Field>, f: Field)
    ensures multiset(WithValue(fields))[f] == if |f.1| > 0 then multiset(fields)[f] else 0
  {
    if |fields| > 0 {
      WithValueExactly(fields[1..], f);
      assert fields == [fields[0]] + fields[1..];
    }
  }

  lemma {:induction false} NoKeyAdded(fields: seq<Field>, key: string)
    ensures HasKey(WithValue(fields), key) ==> HasKey(fields, key)
  {
    if |fields| > 0 {
      NoKeyAdded(fields[1..], key);
      if HasKey(WithValue(fields), key) && fields[0].0 != key {
        var i :| 0 <= i < |WithValue(fields)| && WithValue(fields)[i].0 == key;
        var j := if |fields[0].1| > 0 then i - 1 else i;
        assert WithValue(fields[1..])[j].0 == key;
        var k :| 0 <= k < |fields[1..]| && fields[1..][k].0 == key;
        assert fields[k + 1].0 == key;
      }
    }
  }

  // ---------- printing, a string at a time ----------

  method CountKey(fields: seq<Field>, key: string) returns (found: bool)
    ensures found == HasKey(fields, key)
  {
    found := false;
    for i := 0 to |fields|
      invariant found == exists k :: 0 <= k < i && fields[k].0 == key
    {
      found := found || fields[i].0 == key;
    }
  }

  method AppendField(start: string, f: Field) returns (req: string)
    ensures req == start + FieldLine(f)
  {
    req := start + f.0;
    req := req + ": ";
    req := req + f.1;
    req := req + "\r\n";
    assert req == start + FieldLine(f);
  }

  method AppendFields(start: string, fields: seq<Field>) returns (req: string)
    ensures req == start + FieldLines(fields)
  {
    req := start;
    ghost var lines := "";
    for i := 0 to |fields|
      invariant req == start + lines && lines == FieldLines(fields[..i])
    {
      req := AppendField(req, fields[i]);
      OneMoreField(fields, i);
      SeqAssoc(start, lines, FieldLine(fields[i]));
      lines := lines + FieldLine(fields[i]);
    }
    assert fields[..|fields|] == fields;
  }

  method AppendFieldsWithValue(start: string, fields: seq<Field>) returns (req: string)
    ensures req == start + FieldLines(WithValue(fields))
  {
    req := start;
    ghost var lines := "";
    for i := 0 to |fields|
      invariant req == start + lines && lines == FieldLines(WithValue(fields[..i]))
    {
      OneMoreField(fields, i);
      if |fields[i].1| == 0 {
        continue;
      }
      req := AppendField(req, fields[i]);
      SeqAssoc(start, lines, FieldLine(fields[i]));
      lines := lines + FieldLine(fields[i]);
    }
    assert fields[..|fields|] == fields;
  }

  lemma OneMoreField(fields: seq<Field>, i: nat)
    requires i < |fields|
    ensures FieldLines(fields[..i + 1]) == FieldLines(fields[..i]) + FieldLine(fields[i])
    ensures FieldLines(WithValue(fields[..i + 1]))
         == if |fields[i].1| > 0 then FieldLines(WithValue(fields[..i])) + FieldLine(fields[i])
            else FieldLines(WithValue(fields[..i]))
  {
    assert fields[..i + 1] == fields[..i] + [fields[i]];
    OneField(fields[i]);
    FieldLinesAppend(fields[..i], [fields[i]]);
    WithValueAppend(fields[..i], [fields[i]]);
    FieldLinesAppend(WithValue(fields[..i]), WithValue([fields[i]]));
  }

  lemma OneField(f: Field)
    ensures FieldLines([f]) == FieldLine(f)
    ensures WithValue([f]) == if |f.1| > 0 then [f] else []
  {
    assert FieldLines([f]) == FieldLine(f) + "";
  }

  method AppendLength(start: string, bodySize: nat, ghost line: string, ghost fields: seq<Field>) returns (req: string)
    requires start == line + FieldLines(fields)
    ensures req == line + FieldLines(fields + [("Content-Length", Decimal(bodySize))])
  {
    ghost var f := ("Content-Length", Decimal(bodySize));
    FieldLinesAppend(fields, [f]);
    OneField(f);
    LengthLine(start, Decimal(bodySize));
    SeqAssoc(line, FieldLines(fields), FieldLine(f));
    req := start + ("Content-Length: " + Decimal(bodySize));
    req := req + "\r\n";
  }

  lemma LengthLine(start: string, digits: string)
    ensures start + ("Content-Length: " + digits) + "\r\n" == start + FieldLine(("Content-Length", digits))
  {
    assert "Content-Length: " == "Content-Length" + ": ";
  }

  method PrintRequest(verb: string, path: string, fields: seq<Field>, bodySize: nat) returns (req: string)
    ensures req == RequestText(verb, path, fields, bodySize)
  {
    req := verb;
    req := req + " ";
    req := req + path;
    req := req + " HTTP/1.1";
    req := req + "\r\n";
    assert req == verb + " " + path + " HTTP/1.1\r\n";
    ghost var line := req;
    req := AppendFieldsWithValue(req, fields);
    var given := CountKey(fields, "Content-Length");
    if bodySize > 0 && !given {
      req := AppendLength(req, bodySize, line, WithValue(fields));
    } else {
      assert RequestFields(fields, bodySize) == WithValue(fields);
    }
    assert req == line + FieldLines(RequestFields(fields, bodySize));
    req := req + "\r\n";
  }

  method PrintResponse(code: nat, text: string, fields: seq<Field>, bodySize: nat) returns (resp: string)
    ensures resp == ResponseText(code, text, fields, bodySize)
  {
    resp := "HTTP/1.1 " + Decimal(code);
    resp := resp + " ";
    resp := resp + text;
    resp := resp + "\r\n";
    ghost var line := resp;
    resp := AppendFields(resp, fields);
    if bodySize > 0 {
      resp := AppendLength(resp, bodySize, line, fields);
    } else {
      assert ResponseFields(fields, bodySize) == fields;
    }
    assert resp == line + FieldLines(ResponseFields(fields, bodySize));
    resp := resp + "\r\n";
  }
}
