// The early boot-argument parser of the E404 manager
// (drivers/misc/e404_attributes.c lines 5-104): parse_e404_args splits the
// "e404_args" string with strsep on ' ' and ',' and maps eleven exact
// keywords onto the five early_* variables; e404_parse_attributes copies
// those five into e404_data.

module E404Args {

  datatype Option<T> = None | Some(value: T)

  // ---------------------------------------------------------------------
  // strsep(&str, " ,")
  // ---------------------------------------------------------------------

  predicate IsDelim(c: char) {
    c == ' ' || c == ','
  }

  predicate NoDelim(s: string) {
    forall i :: 0 <= i < |s| ==> !IsDelim(s[i])
  }

  /** The index of the first delimiter of s, or |s| when there is none. */
  function FirstDelim(s: string): (i: nat)
    ensures i <= |s| && NoDelim(s[..i])
    ensures i < |s| ==> IsDelim(s[i])
  {
    if s == [] || IsDelim(s[0]) then 0
    else
      var i := 1 + FirstDelim(s[1..]);
      assert forall j :: 1 <= j < i ==> s[..i][j] == s[1..][..i - 1][j - 1];
      i
  }

  /** strsep on a non-NULL string: the token up to the first delimiter, and
      the rest after it, or NULL when the string held no delimiter. */
  function StrSep(s: string): (r: (string, Option<string>))
    ensures |r.0| <= |s| && r.0 == s[..|r.0|] && NoDelim(r.0)
    ensures r.1.None? ==> r.0 == s
    ensures r.1.Some? ==> |r.0| < |s| && IsDelim(s[|r.0|]) && r.1.value == s[|r.0| + 1..]
  {
    var i := FirstDelim(s);
    if i == |s| then
      assert s[..i] == s;
      (s, None)
    else
      (s[..i], Some(s[i + 1..]))
  }

  /** The first delimiter is where the delimiter-free prefix ends. */
  lemma {:induction false} FirstDelimIs(s: string, i: nat)
    requires i <= |s| && NoDelim(s[..i]) && (i < |s| ==> IsDelim(s[i]))
    ensures FirstDelim(s) == i
  {
    if s != [] && !IsDelim(s[0]) {
      assert s[1..][..i - 1] == s[..i][1..];
      FirstDelimIs(s[1..], i - 1);
    }
  }

  /** Every token strsep returns from s, in order, the empty ones included. */
  function Tokens(s: string): (ts: seq<string>)
    ensures |ts| >= 1
    decreases |s|
  {
    var (token, rest) := StrSep(s);
    match rest
    case None => [token]
    case Some(r) => [token] + Tokens(r)
  }

  /** One strsep call peels the first token off the list still to come. */
  lemma TokensStep(seen: seq<string>, s: string)
    ensures seen + Tokens(s) == (seen + [StrSep(s).0]) + TokensOf(StrSep(s).1)
  {
  }

  /** A string without a delimiter is a single token. */
  lemma TokensSingle(a: string)
    requires NoDelim(a)
    ensures Tokens(a) == [a]
  {
    FirstDelimIs(a, |a|);
    assert a[..|a|] == a;
  }

  /** A delimiter-free prefix followed by a delimiter is the first token,
      and strsep goes on with what follows the delimiter. */
  lemma TokensCons(a: string, d: char, b: string)
    requires NoDelim(a) && IsDelim(d)
    ensures Tokens(a + [d] + b) == [a] + Tokens(b)
  {
    var s := a + [d] + b;
    assert s[..|a|] == a;
    FirstDelimIs(s, |a|);
    assert s[|a| + 1..] == b;
  }

  /** The tokens of a possibly NULL string: none for NULL. */
  function TokensOf(str: Option<string>): seq<string> {
    match str
    case None => []
    case Some(s) => Tokens(s)
  }

  function DelimCount(s: string): nat {
    if s == [] then 0 else (if IsDelim(s[0]) then 1 else 0) + DelimCount(s[1..])
  }

  /** s with every delimiter removed. */
  function WithoutDelims(s: string): string {
    if s == [] then [] else (if IsDelim(s[0]) then [] else [s[0]]) + WithoutDelims(s[1..])
  }

  function Concat(ts: seq<string>): string {
    if ts == [] then [] else ts[0] + Concat(ts[1..])
  }

  lemma {:induction false} DelimCountAppend(a: string, b: string)
    ensures DelimCount(a + b) == DelimCount(a) + DelimCount(b)
  {
    if a != [] {
      assert (a + b)[1..] == a[1..] + b;
      DelimCountAppend(a[1..], b);
    } else {
      assert a + b == b;
    }
  }

  lemma {:induction false} WithoutDelimsAppend(a: string, b: string)
    ensures WithoutDelims(a + b) == WithoutDelims(a) + WithoutDelims(b)
  {
    if a != [] {
      assert (a + b)[1..] == a[1..] + b;
      WithoutDelimsAppend(a[1..], b);
    } else {
      assert a + b == b;
    }
  }

  lemma {:induction false} NoDelimCounts(s: string)
    requires NoDelim(s)
    ensures DelimCount(s) == 0 && WithoutDelims(s) == s
  {
    if s != [] {
      NoDelimCounts(s[1..]);
    }
  }

  /** Each token but the last is followed by exactly one delimiter, so
      there is one token more than there are delimiters. */
  lemma {:induction false} TokensCount(s: string)
    ensures |Tokens(s)| == DelimCount(s) + 1
    decreases |s|
  {
    var (token, rest) := StrSep(s);
    NoDelimCounts(token);
    if rest.Some? {
      var r, d := rest.value, s[|token|];
      assert s == token + ([d] + r);
      TokensCount(r);
      DelimCountAppend(token, [d] + r);
      DelimCountAppend([d], r);
      assert DelimCount([d]) == 1 by {
        assert [d][1..] == [];
      }
    }
  }

  /** No token holds a delimiter. */
  lemma {:induction false} TokensNoDelim(s: string)
    ensures forall k :: 0 <= k < |Tokens(s)| ==> NoDelim(Tokens(s)[k])
    decreases |s|
  {
    var (token, rest) := StrSep(s);
    if rest.Some? {
      TokensNoDelim(rest.value);
      assert Tokens(s) == [token] + Tokens(rest.value);
    }
  }

  /** The tokens put back together are the string without its delimiters. */
  lemma {:induction false} TokensConcat(s: string)
    ensures Concat(Tokens(s)) == WithoutDelims(s)
    decreases |s|
  {
    var (token, rest) := StrSep(s);
    if rest.Some? {
      var r, d := rest.value, s[|token|];
      assert s == token + ([d] + r);
      TokensConcat(r);
      WithoutDelimsAround(token, d, r);
      ConcatCons(token, Tokens(r));
      assert Tokens(s) == [token] + Tokens(r);
    } else {
      NoDelimCounts(token);
      ConcatCons(token, []);
      assert Tokens(s) == [token] + [];
    }
  }

  lemma ConcatCons(t: string, ts: seq<string>)
    ensures Concat([t] + ts) == t + Concat(ts)
  {
    assert ([t] + ts)[1..] == ts;
  }

  /** Removing delimiters from token + d + r, with d the only delimiter up
      to r, leaves the token followed by r without delimiters. */
  lemma WithoutDelimsAround(token: string, d: char, r: string)
    requires NoDelim(token) && IsDelim(d)
    ensures WithoutDelims(token + ([d] + r)) == token + WithoutDelims(r)
  {
    assert WithoutDelims([d] + r) == WithoutDelims(r) by {
      assert ([d] + r)[0] == d && ([d] + r)[1..] == r;
    }
    NoDelimCounts(token);
    WithoutDelimsAppend(token, [d] + r);
  }

  // ---------------------------------------------------------------------
  // The keyword table (lines 61-84)
  // ---------------------------------------------------------------------

  /** The five early_* variables. */
  datatype Field = KernelSU | EffCpu | RomType | DtboType | BattProfile

  datatype EarlyVars = EarlyVars(kernelsu: int, effcpu: int, romType: int, dtboType: int, battProfile: int)

  function Get(v: EarlyVars, f: Field): int {
    match f
    case KernelSU => v.kernelsu
    case EffCpu => v.effcpu
    case RomType => v.romType
    case DtboType => v.dtboType
    case BattProfile => v.battProfile
  }

  function Set(v: EarlyVars, f: Field, x: int): (r: EarlyVars)
    ensures forall g :: Get(r, g) == if g == f then x else Get(v, g)
  {
    match f
    case KernelSU => v.(kernelsu := x)
    case EffCpu => v.(effcpu := x)
    case RomType => v.(romType := x)
    case DtboType => v.(dtboType := x)
    case BattProfile => v.(battProfile := x)
  }

  /** Two records that agree on every field are equal. */
  lemma FieldsEqual(v: EarlyVars, w: EarlyVars)
    requires forall f :: Get(v, f) == Get(w, f)
    ensures v == w
  {
    assert Get(v, KernelSU) == Get(w, KernelSU);
    assert Get(v, EffCpu) == Get(w, EffCpu);
    assert Get(v, RomType) == Get(w, RomType);
    assert Get(v, DtboType) == Get(w, DtboType);
    assert Get(v, BattProfile) == Get(w, BattProfile);
  }

  /** What a recognised keyword does: one variable, one value. */
  datatype Setting = Setting(field: Field, value: int)

  /** The keyword table, matched exactly as strcmp does.  Every keyword is
      a non-empty string without a delimiter, so it can be a strsep token,
      and every value it sets lies in 0..3. */
  function Keyword(token: string): (r: Option<Setting>)
    ensures r.Some? ==> |token| > 0 && NoDelim(token)
    ensures r.Some? ==> 0 <= r.value.value <= 3
  {
    if token == "root_ksu" then Some(Setting(KernelSU, 1))
    else if token == "root_noksu" then Some(Setting(KernelSU, 0))
    else if token == "dtb_effcpu" then Some(Setting(EffCpu, 1))
    else if token == "dtb_def" then Some(Setting(EffCpu, 0))
    else if token == "rom_port" then Some(Setting(RomType, 3))
    else if token == "rom_oem" then Some(Setting(RomType, 2))
    else if token == "rom_aosp" then Some(Setting(RomType, 1))
    else if token == "dtbo_def" then Some(Setting(DtboType, 1))
    else if token == "dtbo_oem" then Some(Setting(DtboType, 2))
    else if token == "batt_def" then Some(Setting(BattProfile, 1))
    else if token == "batt_5k" then Some(Setting(BattProfile, 2))
    else None
  }

  /** One token: a keyword sets its variable and nothing else; an unknown
      or empty token changes nothing. */
  function ApplyToken(v: EarlyVars, token: string): (r: EarlyVars)
    ensures Keyword(token).None? ==> r == v
    ensures var k := Keyword(token);
      forall f :: Get(r, f) == if k.Some? && k.value.field == f then k.value.value else Get(v, f)
  {
    match Keyword(token)
    case None => v
    case Some(s) => Set(v, s.field, s.value)
  }

  /** The variables after the tokens have been processed left to right:
      the last keyword touching a variable decides its final value, and a
      variable no keyword touches keeps its value. */
  function ApplyAll(v: EarlyVars, tokens: seq<string>): (r: EarlyVars)
    ensures forall f :: Get(r, f) == LastSetting(tokens, f, Get(v, f))
  {
    if tokens == [] then v else ApplyToken(ApplyAll(v, tokens[..|tokens| - 1]), tokens[|tokens| - 1])
  }

  lemma ApplyAllStep(v: EarlyVars, tokens: seq<string>, token: string)
    ensures ApplyAll(v, tokens + [token]) == ApplyToken(ApplyAll(v, tokens), token)
  {
    assert (tokens + [token])[..|tokens|] == tokens;
  }

  /** The value the last keyword touching f sets, or d when none does. */
  function LastSetting(tokens: seq<string>, f: Field, d: int): int {
    if tokens == [] then d
    else
      var k := Keyword(tokens[|tokens| - 1]);
      if k.Some? && k.value.field == f then k.value.value else LastSetting(tokens[..|tokens| - 1], f, d)
  }

  /** The recognised tokens of a list, in order. */
  function Known(tokens: seq<string>): (ks: seq<string>)
    ensures forall i :: 0 <= i < |ks| ==> Keyword(ks[i]).Some?
  {
    if tokens == [] then []
    else Known(tokens[..|tokens| - 1]) + (if Keyword(tokens[|tokens| - 1]).Some? then [tokens[|tokens| - 1]] else [])
  }

  /** Unknown and empty tokens have no effect anywhere in the list. */
  lemma {:induction false} UnknownIgnored(v: EarlyVars, tokens: seq<string>)
    ensures ApplyAll(v, tokens) == ApplyAll(v, Known(tokens))
  {
    if tokens != [] {
      var init := tokens[..|tokens| - 1];
      var last := tokens[|tokens| - 1];
      UnknownIgnored(v, init);
      if Keyword(last).Some? {
        assert Known(tokens) == Known(init) + [last];
        assert (Known(init) + [last])[..|Known(init)|] == Known(init);
      } else {
        assert Known(tokens) == Known(init) + [] == Known(init);
      }
    }
  }

  /** Parsing the same arguments a second time changes nothing. */
  lemma ApplyAllIdempotent(v: EarlyVars, tokens: seq<string>)
    ensures ApplyAll(ApplyAll(v, tokens), tokens) == ApplyAll(v, tokens)
  {
    var once := ApplyAll(v, tokens);
    forall f
      ensures Get(ApplyAll(once, tokens), f) == Get(once, f)
    {
      LastSettingTwice(tokens, f, Get(v, f));
    }
    FieldsEqual(ApplyAll(once, tokens), once);
  }

  /** Once the last keyword touching f has been applied, applying the list
      again leaves f alone. */
  lemma {:induction false} LastSettingTwice(tokens: seq<string>, f: Field, d: int)
    ensures LastSetting(tokens, f, LastSetting(tokens, f, d)) == LastSetting(tokens, f, d)
  {
    if tokens != [] {
      var k := Keyword(tokens[|tokens| - 1]);
      if !(k.Some? && k.value.field == f) {
        LastSettingTwice(tokens[..|tokens| - 1], f, d);
      }
    }
  }

  /** Matching is exact: a token that only begins with a keyword is
      unknown. */
  lemma ExactMatch(v: EarlyVars)
    ensures Keyword("rom_oem2").None? && ApplyToken(v, "rom_oem2") == v
    ensures Keyword("ROOT_KSU").None? && Keyword("root_ksu ").None?
  {
  }

  /** The tokens rom_oem, an empty one (from ",,") and rom_port: the empty
      token is skipped and rom_port overrides rom_oem. */
  lemma ParseExample(v: EarlyVars)
    ensures ApplyAll(v, ["rom_oem", "", "rom_port"]) == v.(romType := 3)
  {
    ApplyAllStep(v, [], "rom_oem");
    assert [] + ["rom_oem"] == ["rom_oem"];
    ApplyAllStep(v, ["rom_oem"], "");
    assert ["rom_oem"] + [""] == ["rom_oem", ""];
    ApplyAllStep(v, ["rom_oem", ""], "rom_port");
    assert ["rom_oem", ""] + ["rom_port"] == ["rom_oem", "", "rom_port"];
    assert Keyword("rom_oem") == Some(Setting(RomType, 2));
    assert Keyword("") == None;
    assert Keyword("rom_port") == Some(Setting(RomType, 3));
  }

  // ---------------------------------------------------------------------
  // The early_* globals and parse_e404_args (lines 21-88)
  // ---------------------------------------------------------------------

  /** The build options that choose the early defaults. */
  datatype BuildConfig = BuildConfig(ksuDefault: bool, effcpuDefault: bool, miui: bool, batt5kDefault: bool)

  class EarlyParams {
    var kernelsu: int
    var effcpu: int
    var romType: int
    var dtboType: int
    var battProfile: int

    function Vars(): EarlyVars
      reads this
    {
      EarlyVars(kernelsu, effcpu, romType, dtboType, battProfile)
    }

    /** The initial values of the early_* variables under a build
        configuration. */
    constructor (config: BuildConfig)
      ensures kernelsu == (if config.ksuDefault then 1 else 0)
      ensures effcpu == (if config.effcpuDefault then 1 else 0)
      ensures romType == (if config.miui then 2 else 1)
      ensures dtboType == (if config.miui then 2 else 1)
      ensures battProfile == (if config.batt5kDefault then 2 else 1)
    {
      kernelsu := if config.ksuDefault then 1 else 0;
      effcpu := if config.effcpuDefault then 1 else 0;
      romType := if config.miui then 2 else 1;
      dtboType := if config.miui then 2 else 1;
      battProfile := if config.batt5kDefault then 2 else 1;
    }

    /** The keyword chain of parse_e404_args for one non-empty token. */
    method SetFlag(arg: string)
      modifies this
      ensures Vars() == ApplyToken(old(Vars()), arg)
    {
      if arg == "root_ksu" {
        kernelsu := 1;
      } else if arg == "root_noksu" {
        kernelsu := 0;
      } else if arg == "dtb_effcpu" {
        effcpu := 1;
      } else if arg == "dtb_def" {
        effcpu := 0;
      } else if arg == "rom_port" {
        romType := 3;
      } else if arg == "rom_oem" {
        romType := 2;
      } else if arg == "rom_aosp" {
        romType := 1;
      } else if arg == "dtbo_def" {
        dtboType := 1;
      } else if arg == "dtbo_oem" {
        dtboType := 2;
      } else if arg == "batt_def" {
        battProfile := 1;
      } else if arg == "batt_5k" {
        battProfile := 2;
      }
    }

    /** parse_e404_args; str is None for a NULL argument.  The parser always
        returns 0. */
    method ParseE404Args(str: Option<string>) returns (ret: int)
      modifies this
      ensures ret == 0
      ensures Vars() == ApplyAll(old(Vars()), TokensOf(str))
    {
      var rest := str;
      ghost var seen: seq<string> := [];
      while rest.Some?
        invariant seen + TokensOf(rest) == TokensOf(str)
        invariant Vars() == ApplyAll(old(Vars()), seen)
        decreases if rest.Some? then |rest.value| + 1 else 0
      {
        var (arg, next) := StrSep(rest.value);
        TokensStep(seen, rest.value);
        ApplyAllStep(old(Vars()), seen, arg);
        rest := next;
        seen := seen + [arg];
        if |arg| == 0 {
          continue;
        }
        SetFlag(arg);
      }
      assert seen + [] == seen;
      return 0;
    }
  }

  // ---------------------------------------------------------------------
  // e404_data and e404_parse_attributes (lines 5-18, 91-104)
  // ---------------------------------------------------------------------

  datatype AttributeRecord = AttributeRecord(
    kernelsu: int, effcpu: int, romType: int, dtboType: int, battProfile: int,
    kgslSkipZeroing: int, pidShrink: int, fileSync: int,
    panelWidth: int, panelHeight: int, oemPanelWidth: int, oemPanelHeight: int)

  /** struct e404_attributes e404_data. */
  class E404Attributes {
    var kernelsu: int
    var effcpu: int
    var romType: int
    var dtboType: int
    var battProfile: int
    var kgslSkipZeroing: int
    var pidShrink: int
    var fileSync: int
    var panelWidth: int
    var panelHeight: int
    var oemPanelWidth: int
    var oemPanelHeight: int

    function Record(): AttributeRecord
      reads this
    {
      AttributeRecord(kernelsu, effcpu, romType, dtboType, battProfile,
                      kgslSkipZeroing, pidShrink, fileSync,
                      panelWidth, panelHeight, oemPanelWidth, oemPanelHeight)
    }

    /** The static initialiser of e404_data. */
    constructor ()
      ensures Record() == AttributeRecord(0, 0, 1, 1, 1, 0, 0, 1, 70, 155, 700, 1550)
    {
      kernelsu, effcpu, romType, dtboType, battProfile := 0, 0, 1, 1, 1;
      kgslSkipZeroing, pidShrink, fileSync := 0, 0, 1;
      panelWidth, panelHeight, oemPanelWidth, oemPanelHeight := 70, 155, 700, 1550;
    }

    /** e404_parse_attributes: the five early values are copied in, the
        other seven attributes are left as they were. */
    method ParseAttributes(early: EarlyParams)
      modifies this
      ensures Record() == old(Record()).(kernelsu := early.kernelsu, effcpu := early.effcpu,
                                         romType := early.romType, dtboType := early.dtboType,
                                         battProfile := early.battProfile)
    {
      kernelsu := early.kernelsu;
      effcpu := early.effcpu;
      romType := early.romType;
      dtboType := early.dtboType;
      battProfile := early.battProfile;
    }
  }
}
