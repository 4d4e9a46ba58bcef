/** The `AUTHORIZED_USER_IDS` expression of azoth_commands/helpers.py: the
 *  environment variable is split on commas, each token stripped, tokens of
 *  digits kept and read as integers, and the values collected in a set.  The
 *  variable's value, or None when it is unset, is a parameter. */
module AuthorizedIds {
  import opened Wrappers
  import opened Text

  /** `uid.strip().isdigit()` */
  predicate Accepted(token: string)
  {
    IsDigits(Strip(token))
  }

  /** `int(uid.strip())` */
  function TokenValue(token: string): nat
    requires Accepted(token)
  {
    DecimalValue(Strip(token))
  }

  /** The set comprehension over the tokens: the values of the accepted ones. */
  function IdsOf(tokens: seq<string>): set<nat>
  {
    set i | 0 <= i < |tokens| && Accepted(tokens[i]) :: TokenValue(tokens[i])
  }

  /** `os.getenv("AUTHORIZED_USER_IDS", "")` and the expression built on it. */
  function AuthorizedUserIds(env: Option<string>): set<nat>
  {
    IdsOf(SplitOn(env.GetOr(""), ','))
  }

  /** An unset or empty variable authorises nobody. */
  lemma NoVariableNoIds()
    ensures AuthorizedUserIds(None) == {}
    ensures AuthorizedUserIds(Some("")) == {}
  {
    assert SplitOn("", ',') == [""];
    assert !Accepted("");
  }

  lemma IdsAppend(a: seq<string>, b: seq<string>)
    ensures IdsOf(a + b) == IdsOf(a) + IdsOf(b)
  {
    forall v | v in IdsOf(a + b)
      ensures v in IdsOf(a) + IdsOf(b)
    {
      var i :| 0 <= i < |a + b| && Accepted((a + b)[i]) && TokenValue((a + b)[i]) == v;
      if i < |a| {
        assert (a + b)[i] == a[i];
      } else {
        assert (a + b)[i] == b[i - |a|];
      }
    }
    forall v | v in IdsOf(a) + IdsOf(b)
      ensures v in IdsOf(a + b)
    {
      if v in IdsOf(a) {
        var i :| 0 <= i < |a| && Accepted(a[i]) && TokenValue(a[i]) == v;
        assert (a + b)[i] == a[i];
      } else {
        var i :| 0 <= i < |b| && Accepted(b[i]) && TokenValue(b[i]) == v;
        assert (a + b)[|a| + i] == b[i];
      }
    }
  }

  /** A token that after stripping is empty or holds anything but digits (a
   *  sign, a letter, inner space) adds no id. */
  lemma RejectedTokenIgnored(before: seq<string>, token: string, after: seq<string>)
    requires !Accepted(token)
    ensures IdsOf(before + [token] + after) == IdsOf(before + after)
  {
    assert IdsOf([token]) == {} by {
      assert [token][1..] == [];
    }
    IdsAppend(before, [token]);
    assert IdsOf(before + [token]) == IdsOf(before);
    IdsAppend(before + [token], after);
    IdsAppend(before, after);
  }

  lemma {:induction false} DecimalLeadingZero(d: string)
    requires forall i :: 0 <= i < |d| ==> IsDigit(d[i])
    ensures DecimalValue("0" + d) == DecimalValue(d)
  {
    if d != [] {
      var z := "0" + d;
      assert z[..|z| - 1] == "0" + d[..|d| - 1];
      assert z[|z| - 1] == d[|d| - 1];
      DecimalLeadingZero(d[..|d| - 1]);
    }
  }

  /** A digit string has no whitespace to strip. */
  lemma NoSpaceAtEnds(d: string)
    requires |d| > 0 && IsDigit(d[0]) && IsDigit(d[|d| - 1])
    ensures !IsSpace(d[0]) && !IsSpace(d[|d| - 1])
    ensures Strip(d) == d
  {
    StripBothKeeps(d, IsSpace);
  }

  /** A leading zero does not change the id: "007" and "7" are the same user. */
  lemma LeadingZeroIgnored(d: string)
    requires IsDigits(d)
    ensures Accepted("0" + d) && Accepted(d)
    ensures TokenValue("0" + d) == TokenValue(d)
  {
    var z := "0" + d;
    assert IsDigit(z[0]) && IsDigit(z[|z| - 1]) by {
      assert z[0] == '0' && z[|z| - 1] == d[|d| - 1];
    }
    NoSpaceAtEnds(d);
    NoSpaceAtEnds(z);
    DecimalLeadingZero(d);
  }

  lemma {:induction false} StripLeftPadding(pad: string, t: string)
    requires forall i :: 0 <= i < |pad| ==> IsSpace(pad[i])
    requires t == [] || !IsSpace(t[0])
    ensures StripLeft(pad + t, IsSpace) == t
  {
    if pad == [] {
      assert pad + t == t;
    } else {
      assert (pad + t)[1..] == pad[1..] + t;
      StripLeftPadding(pad[1..], t);
    }
  }

  lemma {:induction false} StripRightPadding(t: string, pad: string)
    requires forall i :: 0 <= i < |pad| ==> IsSpace(pad[i])
    requires t == [] || !IsSpace(t[|t| - 1])
    ensures StripRight(t + pad, IsSpace) == t
  {
    if pad == [] {
      assert t + pad == t;
    } else {
      var p := pad[..|pad| - 1];
      assert (t + pad)[..|t + pad| - 1] == t + p;
      StripRightPadding(t, p);
    }
  }

  /** Whitespace around a digit token is ignored: stripping the padded token
   *  gives back the bare one, so it is accepted with the same value. */
  lemma PaddingIgnored(before: string, token: string, after: string)
    requires forall i :: 0 <= i < |before| ==> IsSpace(before[i])
    requires forall i :: 0 <= i < |after| ==> IsSpace(after[i])
    requires IsDigits(token)
    ensures Strip(before + token + after) == token
  {
    assert before + token + after == before + (token + after);
    NoSpaceAtEnds(token);
    StripLeftPadding(before, token + after);
    StripRightPadding(token, after);
  }

  function Decimals(ids: seq<nat>): (ts: seq<string>)
    ensures |ts| == |ids|
    ensures forall i :: 0 <= i < |ids| ==> ts[i] == NatToDecimal(ids[i])
  {
    seq(|ids|, i requires 0 <= i < |ids| => NatToDecimal(ids[i]))
  }

  /** A decimal written by `str` holds no comma and is read back as itself. */
  lemma DecimalToken(n: nat)
    ensures ',' !in NatToDecimal(n) && Accepted(NatToDecimal(n)) && TokenValue(NatToDecimal(n)) == n
  {
    var t := NatToDecimal(n);
    StripBothKeeps(t, IsSpace);
    DecimalOfNat(n);
  }

  lemma IdsOfDecimals(ids: seq<nat>)
    ensures IdsOf(Decimals(ids)) == set i | 0 <= i < |ids| :: ids[i]
  {
    var ts := Decimals(ids);
    var want := set i | 0 <= i < |ids| :: ids[i];
    forall v | v in want
      ensures v in IdsOf(ts)
    {
      var i :| 0 <= i < |ids| && ids[i] == v;
      DecimalToken(ids[i]);
      assert 0 <= i < |ts| && Accepted(ts[i]) && TokenValue(ts[i]) == v;
    }
    forall v | v in IdsOf(ts)
      ensures v in want
    {
      var i :| 0 <= i < |ts| && Accepted(ts[i]) && TokenValue(ts[i]) == v;
      DecimalToken(ids[i]);
    }
  }

  /** Writing ids in decimal, comma-separated, authorises exactly those ids:
   *  duplicates collapse into the set. */
  lemma ParseOfJoin(ids: seq<nat>)
    requires |ids| >= 1
    ensures AuthorizedUserIds(Some(JoinWith(Decimals(ids), ','))) == set i | 0 <= i < |ids| :: ids[i]
  {
    var ts := Decimals(ids);
    forall i | 0 <= i < |ts|
      ensures ',' !in ts[i]
    {
      DecimalToken(ids[i]);
    }
    SplitOnJoin(ts, ',');
    IdsOfDecimals(ids);
  }
}
