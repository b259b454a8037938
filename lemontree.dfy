/** LemonTree: the lemon species' constant overrides. Its natural growth is
    switched off (see Tree.GrowSpec), it asks for no clearance beyond the
    trunk column, tints its leaves one fixed colour and drops a lemon on one
    draw in twenty. */
module LemonTree {

  const Name: string := "lemon"
  const Seed: nat := 4

  /** LEAVES_COLOR, 0x87A92C. */
  const LeavesColor: int := 0x87A92C

  /** What getApple hands out. */
  datatype Drop = Empty | LemonFruit

  /** getBlockColor ignores the state, position and tint index it is given;
      the block state and position are not modelled, only the tint index. */
  function BlockColor(tintIndex: int): int
  {
    LeavesColor
  }

  /** getItemColor ignores the stack and tint index it is given. */
  function ItemColor(tintIndex: int): int
  {
    LeavesColor
  }

  /** The block and the item are tinted alike, whatever the arguments. */
  lemma ColorsAgree(blockTint: int, itemTint: int)
    ensures BlockColor(blockTint) == ItemColor(itemTint) == 0x87A92C
  {
  }

  /** getMooreRadiusAtHeight: no clearance around the trunk at any height. */
  function MooreRadiusAtHeight(height: int, trunkHeight: int): (r: int)
    ensures r == 0
  {
    0
  }

  /** getApple, given the value `nextInt(20)` returned. */
  function GetApple(roll: int): (d: Drop)
    requires 0 <= roll < 20
  {
    if roll == 0 then LemonFruit else Empty
  }

  /** A lemon drops on exactly one of the twenty equally likely draws. */
  lemma AppleOneInTwenty()
    ensures (set roll | 0 <= roll < 20 && GetApple(roll) == LemonFruit) == {0}
    ensures |set roll | 0 <= roll < 20 && GetApple(roll) == LemonFruit| == 1
  {
    var s := set roll | 0 <= roll < 20 && GetApple(roll) == LemonFruit;
    assert 0 in s;
    assert forall r :: r in s ==> r == 0;
    assert s == {0};
  }
}
