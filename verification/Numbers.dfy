/** Number types and functions shared by the modules of this project. */
module Numbers {

  type uint32 = x: nat | x < 0x1_0000_0000

  function Min(x: nat, y: nat): nat { if x <= y then x else y }

  function Max(x: nat, y: nat): nat { if x <= y then y else x }
}
