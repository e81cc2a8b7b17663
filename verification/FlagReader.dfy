/** `break_down_flags`: the code of the reader, and printing and reading in a row. */
module FlagReader {
  import opened Wrappers
  import opened FlagText
  import opened FlagPlaces

  class FlagRecord {
    var kinds: Kinds
    var global: set<nat>
    var udefGlobal: set<nat>
    var bot: set<nat>
    var chan: set<nat>
    var udefChan: set<nat>

    constructor (r: Rec)
      ensures Val() == r
    {
      kinds, global, udefGlobal, bot, chan, udefChan := r.kinds, r.global, r.udefGlobal, r.bot, r.chan, r.udefChan;
    }

    function Val(): Rec
      reads this
    {
      Rec(kinds, global, udefGlobal, bot, chan, udefChan)
    }

    method Clear()
      modifies this
      ensures Val() == EMPTY
    {
      kinds, global, udefGlobal, bot, chan, udefChan := NONE, {}, {}, {}, {}, {};
    }

    /** The flag that a letter or digit stands for in this mode. */
    method Add(mode: nat, c: char)
      modifies this
      ensures Val() == AddFlag(old(Val()), mode, c)
    {
      if 'a' <= c <= 'z' {
        var k := c as int - 'a' as int;
        if mode == 0 {
          global := global + {k};
        } else if mode == 1 {
          chan := chan + {k};
        } else if mode == 2 && c <= 'u' {
          bot := bot + {k};
        }
      } else if 'A' <= c <= 'Z' || '0' <= c <= '9' {
        var k := c as int - (if c <= '9' then '0' else 'A') as int;
        if mode == 0 {
          udefGlobal := udefGlobal + {k};
        } else if mode == 1 {
          udefChan := udefChan + {k};
        } else if mode == 2 && c <= '9' {
          bot := bot + {21 + k};
        }
      }
    }

    method Mask()
      modifies this
      ensures Val() == Masked(old(Val()))
    {
      global, udefGlobal := global * USER_VALID, udefGlobal * UDEF_VALID;
      chan, udefChan := chan * CHAN_VALID, udefChan * UDEF_VALID;
      bot := bot * BOT_VALID;
    }
  }

  ghost function MinusVal(minus: FlagRecord?): Rec
    reads minus
  {
    if minus == null then EMPTY else minus.Val()
  }

  lemma FeedSnoc(st: Reader, s: string, i: nat, kinds: Kinds, hasMinus: bool)
    requires i < |s|
    ensures Feed(st, s[..i + 1], kinds, hasMinus) == StepRead(Feed(st, s[..i], kinds, hasMinus), s[i], kinds, hasMinus)
  {
    assert s[..i + 1][..i] == s[..i];
  }

  lemma {:induction false} StoppedStays(st: Reader, s: string, i: nat, kinds: Kinds, hasMinus: bool)
    requires i <= |s| && Feed(st, s[..i], kinds, hasMinus).stopped
    ensures Feed(st, s, kinds, hasMinus) == Feed(st, s[..i], kinds, hasMinus)
    decreases |s| - i
  {
    if i < |s| {
      FeedSnoc(st, s, i, kinds, hasMinus);
      StoppedStays(st, s, i + 1, kinds, hasMinus);
    } else {
      assert s[..i] == s;
    }
  }

  /** One character: the switch inside the reader's loop. */
  method TakeChar(c: char, plus: FlagRecord, minus: FlagRecord?, toMinus: bool, mode: nat, flags: Kinds)
    returns (toMinus': bool, mode': nat, stop: bool)
    requires plus != minus && (toMinus ==> minus != null)
    modifies plus, minus
    ensures (toMinus' ==> minus != null)
    ensures Reader(plus.Val(), MinusVal(minus), toMinus', mode', stop)
            == StepRead(Reader(old(plus.Val()), old(MinusVal(minus)), toMinus, mode, false), c, flags, minus != null)
  {
    toMinus', mode', stop := toMinus, mode, false;
    if c == '+' {
      toMinus' := false;
    } else if c == '-' {
      toMinus' := minus != null;
    } else if c == '|' || c == '&' {
      if mode == 0 {
        plus.kinds := if c == '|' then NONE.(either := true) else NONE.(both := true);
      }
      toMinus' := false;
      mode' := mode + 1;
      if mode' == 2 && !flags.chan && !flags.bot {
        stop := true;
      } else if mode' == 3 {
        mode' := 1;
      }
    } else if toMinus {
      minus.Add(mode, c);
    } else {
      plus.Add(mode, c);
    }
  }

  /** Reads a text into one or two records; `plus` says on entry which flags are meant. */
  method BreakDownFlags(s: string, plus: FlagRecord, minus: FlagRecord?)
    requires plus != minus
    modifies plus, minus
    ensures var flags := old(plus.kinds);
            if flags.glob || flags.bot || flags.chan then
              && plus.Val() == ReadStr(s, flags, minus != null).0
              && (minus != null ==> minus.Val() == ReadStr(s, flags, true).1)
            else plus.Val() == old(plus.Val()) && (minus != null ==> minus.Val() == old(minus.Val()))
    ensures var flags := old(plus.kinds);
            flags.glob || flags.bot || flags.chan ==>
              PlusFrom(s, flags, minus != null, plus.Val()) && (minus != null ==> MinusFrom(s, flags, true, minus.Val()))
  {
    var flags := plus.kinds;
    if Wanted(flags) { ReadPlaces(s, flags, minus != null); }
    var mode: nat := 0;
    if !flags.glob {
      if flags.bot {
        mode := 2;
      } else if flags.chan {
        mode := 1;
      } else {
        return;
      }
    }
    plus.Clear();
    if minus != null {
      minus.Clear();
    }
    plus.kinds := NONE.(either := true);
    ReadLoop(s, plus, minus, mode, flags);
    plus.Mask();
    if minus != null {
      minus.Mask();
    }
    plus.kinds := Union(plus.kinds, flags);
    if minus != null {
      minus.kinds := Union(minus.kinds, flags);
      if !plus.kinds.both && !plus.kinds.either {
        plus.kinds := plus.kinds.(either := true);
      }
    }
  }

  /** The loop over the text. */
  method ReadLoop(s: string, plus: FlagRecord, minus: FlagRecord?, start: nat, flags: Kinds)
    requires plus != minus
    modifies plus, minus
    ensures var st := Feed(Reader(old(plus.Val()), old(MinusVal(minus)), false, start, false), s, flags, minus != null);
            plus.Val() == st.plus && MinusVal(minus) == st.minus
  {
    ghost var st := Reader(plus.Val(), MinusVal(minus), false, start, false);
    var toMinus, mode := false, start;
    var i := 0;
    assert s[..0] == "";
    while i < |s|
      invariant 0 <= i <= |s| && (toMinus ==> minus != null)
      invariant Feed(st, s[..i], flags, minus != null) == Reader(plus.Val(), MinusVal(minus), toMinus, mode, false)
    {
      FeedSnoc(st, s, i, flags, minus != null);
      var stop;
      toMinus, mode, stop := TakeChar(s[i], plus, minus, toMinus, mode, flags);
      i := i + 1;
      if stop {
        StoppedStays(st, s, i, flags, minus != null);
        return;
      }
    }
    assert s[..i] == s;
  }

  /** Print, then read back into fresh records: both come back as they were. */
  method PrintAndRead(plus: Rec, minus: Rec) returns (p: FlagRecord, m: FlagRecord)
    requires Valid(plus) && Valid(minus) && Printable(Asked(plus.kinds))
    ensures p.Val() == Selected(plus, Asked(plus.kinds), Joint(plus.kinds))
    ensures m.Val() == Selected(minus, Asked(plus.kinds), NONE)
  {
    var out := new char[214];
    var len := BuildFlags(out, plus, Some(minus));
    RoundTrip(plus, Some(minus), Asked(plus.kinds));
    p := new FlagRecord(EMPTY.(kinds := Asked(plus.kinds)));
    m := new FlagRecord(EMPTY);
    BreakDownFlags(out[..len], p, m);
  }
}
