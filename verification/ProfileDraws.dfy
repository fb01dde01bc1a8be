/** What the generator of profiles draws first. */
module ProfileDraws {
  import opened Counting
  import opened ProfileDraw

  /** The first log of a process. */
  const SEED: bv64 := 0x9E3779B97F4A7C15
  const FIRST_STATE: bv64 := 0xE220A8397B1DCDAF

  lemma FirstSeed()
    ensures Scramble(SEED) == FIRST_STATE
  {
  }

  lemma Draw1()
    ensures NextState(FIRST_STATE) == 0x85DF9EDBA579A510
  {
  }

  lemma Draw2()
    ensures NextState(0x85DF9EDBA579A510) == 0xC14644DF740B6A61
  {
  }

  lemma Draw3()
    ensures NextState(0xC14644DF740B6A61) == 0xB739A8F870C93705
  {
  }

  lemma Draw4()
    ensures NextState(0xB739A8F870C93705) == 0x72CC471B8AC6D92C
  {
  }

  lemma Draw5()
    ensures NextState(0x72CC471B8AC6D92C) == 0xCD3D972CDECC93EE
  {
  }

  const FACTOR := 0x2545F4914F6CDD1D

  lemma IndexFrom(state: bv64, value: nat, overflow: nat, low: nat, fifties: nat, index: nat)
    requires state as nat == value
    requires value * FACTOR == overflow * WORD + low && low < WORD
    requires low == fifties * PROFILE_COUNT + index && index < PROFILE_COUNT
    ensures ProfileIndex(state) == index
  {
    DivModUnique(value * FACTOR, WORD, overflow, low);
    DivModUnique(low, PROFILE_COUNT, fifties, index);
  }

  lemma Index1()
    ensures ProfileIndex(0x85DF9EDBA579A510) == 48
  {
    IndexFrom(0x85DF9EDBA579A510, 0x85DF9EDBA579A510, 0x137DE720B0B972C3, 0x7BBCB40D550682D0, 0x27988B8962E35D0, 48);
  }

  lemma Index2()
    ensures ProfileIndex(0xC14644DF740B6A61) == 25
  {
    IndexFrom(0xC14644DF740B6A61, 0xC14644DF740B6A61, 0x1C23F8898A68CA74, 0xDE7FE413D00CC9FD, 0x47332A43C7B22C2, 25);
  }

  lemma Index3()
    ensures ProfileIndex(0xB739A8F870C93705) == 43
  {
    IndexFrom(0xB739A8F870C93705, 0xB739A8F870C93705, 0x1AAD670168D1B120, 0xB3C638353C668C91, 0x39871C39FED922B, 43);
  }

  lemma Index4()
    ensures ProfileIndex(0x72CC471B8AC6D92C) == 20
  {
    IndexFrom(0x72CC471B8AC6D92C, 0x72CC471B8AC6D92C, 0x10B6E50202938721, 0xE073AFC0949195FC, 0x47D319854E43114, 20);
  }

  lemma Index5()
    ensures ProfileIndex(0xCD3D972CDECC93EE) == 46
  {
    IndexFrom(0xCD3D972CDECC93EE, 0xCD3D972CDECC93EE, 0x1DE1FC866EF24C32, 0x7F2F9E2EB34937F6, 0x28B313E5FBEE784, 46);
  }

  function Profiles(state: bv64, n: nat): (indices: seq<nat>)
    ensures |indices| == n && forall i :: 0 <= i < n ==> indices[i] == ProfileIndex(StateAfter(state, i + 1))
  {
    seq(n, i requires 0 <= i < n => ProfileIndex(StateAfter(state, i + 1)))
  }

  lemma StateUnrolls(state: bv64, n: nat, before: bv64)
    requires StateAfter(state, n) == before
    ensures StateAfter(state, n + 1) == NextState(before)
  {
  }

  lemma FirstStates()
    ensures StateAfter(FIRST_STATE, 1) == 0x85DF9EDBA579A510 && StateAfter(FIRST_STATE, 2) == 0xC14644DF740B6A61
    ensures StateAfter(FIRST_STATE, 3) == 0xB739A8F870C93705 && StateAfter(FIRST_STATE, 4) == 0x72CC471B8AC6D92C
    ensures StateAfter(FIRST_STATE, 5) == 0xCD3D972CDECC93EE
  {
    StateUnrolls(FIRST_STATE, 0, FIRST_STATE);
    Draw1();
    StateUnrolls(FIRST_STATE, 1, 0x85DF9EDBA579A510);
    Draw2();
    StateUnrolls(FIRST_STATE, 2, 0xC14644DF740B6A61);
    Draw3();
    StateUnrolls(FIRST_STATE, 3, 0xB739A8F870C93705);
    Draw4();
    StateUnrolls(FIRST_STATE, 4, 0x72CC471B8AC6D92C);
    Draw5();
  }

  /** The first five renderings of the first log with privacy tokens show these profiles. */
  lemma FirstProfiles()
    ensures Profiles(Scramble(SEED), 5) == [48, 25, 43, 20, 46]
  {
    FirstSeed();
    FirstStates();
    Index1();
    Index2();
    Index3();
    Index4();
    Index5();
  }
}
