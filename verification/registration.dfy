/** Registration form handling: entries whose name is blank after stripping
    whitespace are dropped; the rest keep their original order and spelling. */
module Registration {
  import opened Types

  /** Python's `str.isspace` for a single character: the characters `str.strip()` removes. */
  predicate IsSpace(c: char) {
    var n := c as int;
    || (0x09 <= n <= 0x0D) || (0x1C <= n <= 0x20) || n == 0x85 || n == 0xA0
    || n == 0x1680 || (0x2000 <= n <= 0x200A) || n == 0x2028 || n == 0x2029
    || n == 0x202F || n == 0x205F || n == 0x3000
  }

  /** `name.strip() == ""`. */
  predicate IsBlank(name: string) {
    forall k :: 0 <= k < |name| ==> IsSpace(name[k])
  }

  /** The registration entries with a non-blank name, in form order. */
  function NonBlank(form: seq<Player>): (r: seq<Player>)
    ensures |r| <= |form|
    ensures forall p :: p in r <==> p in form && !IsBlank(p.name)
    decreases |form|
  {
    if |form| == 0 then []
    else if IsBlank(form[0].name) then NonBlank(form[1..])
    else [form[0]] + NonBlank(form[1..])
  }

  /** Filtering distributes over concatenation, so the kept entries keep their
      relative order. */
  lemma {:induction false} NonBlankConcat(a: seq<Player>, b: seq<Player>)
    ensures NonBlank(a + b) == NonBlank(a) + NonBlank(b)
    decreases |a|
  {
    if |a| == 0 {
      assert a + b == b;
    } else {
      assert (a + b)[0] == a[0];
      assert (a + b)[1..] == a[1..] + b;
      NonBlankConcat(a[1..], b);
    }
  }

  /** A form without blank names is kept whole. */
  lemma {:induction false} NonBlankKeepsFilledForm(form: seq<Player>)
    requires forall k :: 0 <= k < |form| ==> !IsBlank(form[k].name)
    ensures NonBlank(form) == form
    decreases |form|
  {
    if |form| > 0 {
      NonBlankKeepsFilledForm(form[1..]);
      assert form == [form[0]] + form[1..];
    }
  }
}
