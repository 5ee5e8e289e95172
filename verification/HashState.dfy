/** The eight state words that both engines keep in an array and add the working variables to. */
module HashState {
  import opened Fips180

  function StateRegs(s: seq<word>): Regs
    requires |s| == 8
  {
    Regs(s[0], s[1], s[2], s[3], s[4], s[5], s[6], s[7])
  }

  method AddToState(state: array<word>, a: word, b: word, c: word, d: word, e: word, f: word, g: word, h: word)
    requires state.Length == 8
    modifies state
    ensures StateRegs(state[..]) == AddRegs(old(StateRegs(state[..])), Regs(a, b, c, d, e, f, g, h))
  {
    hide Sum2;
    var s0, s1, s2, s3 := state[0], state[1], state[2], state[3];
    var s4, s5, s6, s7 := state[4], state[5], state[6], state[7];
    state[0], state[1], state[2], state[3] := s0 + a, s1 + b, s2 + c, s3 + d;
    state[4], state[5], state[6], state[7] := s4 + e, s5 + f, s6 + g, s7 + h;
    Sum2Of(s0, a);
    Sum2Of(s1, b);
    Sum2Of(s2, c);
    Sum2Of(s3, d);
    Sum2Of(s4, e);
    Sum2Of(s5, f);
    Sum2Of(s6, g);
    Sum2Of(s7, h);
  }
}
