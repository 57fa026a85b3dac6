/** The multiplication table of the SAE-PK check character, eight rows at a time. */
module SaePkTable {
  type Digit = v: nat | v < 32

  function FirstRows(x: Digit, y: Digit): Digit
    requires x < 8
  {
    match x
    case 0 => (match y
      case 0 => 0 case 1 => 1 case 2 => 2 case 3 => 3 case 4 => 4 case 5 => 5 case 6 => 6 case 7 => 7
      case 8 => 8 case 9 => 9 case 10 => 10 case 11 => 11 case 12 => 12 case 13 => 13 case 14 => 14 case 15 => 15
      case 16 => 16 case 17 => 17 case 18 => 18 case 19 => 19 case 20 => 20 case 21 => 21 case 22 => 22 case 23 => 23
      case 24 => 24 case 25 => 25 case 26 => 26 case 27 => 27 case 28 => 28 case 29 => 29 case 30 => 30 case _ => 31)
    case 1 => (match y
      case 0 => 1 case 1 => 2 case 2 => 3 case 3 => 4 case 4 => 5 case 5 => 6 case 6 => 7 case 7 => 8
      case 8 => 9 case 9 => 10 case 10 => 11 case 11 => 12 case 12 => 13 case 13 => 14 case 14 => 15 case 15 => 0
      case 16 => 17 case 17 => 18 case 18 => 19 case 19 => 20 case 20 => 21 case 21 => 22 case 22 => 23 case 23 => 24
      case 24 => 25 case 25 => 26 case 26 => 27 case 27 => 28 case 28 => 29 case 29 => 30 case 30 => 31 case _ => 16)
    case 2 => (match y
      case 0 => 2 case 1 => 3 case 2 => 4 case 3 => 5 case 4 => 6 case 5 => 7 case 6 => 8 case 7 => 9
      case 8 => 10 case 9 => 11 case 10 => 12 case 11 => 13 case 12 => 14 case 13 => 15 case 14 => 0 case 15 => 1
      case 16 => 18 case 17 => 19 case 18 => 20 case 19 => 21 case 20 => 22 case 21 => 23 case 22 => 24 case 23 => 25
      case 24 => 26 case 25 => 27 case 26 => 28 case 27 => 29 case 28 => 30 case 29 => 31 case 30 => 16 case _ => 17)
    case 3 => (match y
      case 0 => 3 case 1 => 4 case 2 => 5 case 3 => 6 case 4 => 7 case 5 => 8 case 6 => 9 case 7 => 10
      case 8 => 11 case 9 => 12 case 10 => 13 case 11 => 14 case 12 => 15 case 13 => 0 case 14 => 1 case 15 => 2
      case 16 => 19 case 17 => 20 case 18 => 21 case 19 => 22 case 20 => 23 case 21 => 24 case 22 => 25 case 23 => 26
      case 24 => 27 case 25 => 28 case 26 => 29 case 27 => 30 case 28 => 31 case 29 => 16 case 30 => 17 case _ => 18)
    case 4 => (match y
      case 0 => 4 case 1 => 5 case 2 => 6 case 3 => 7 case 4 => 8 case 5 => 9 case 6 => 10 case 7 => 11
      case 8 => 12 case 9 => 13 case 10 => 14 case 11 => 15 case 12 => 0 case 13 => 1 case 14 => 2 case 15 => 3
      case 16 => 20 case 17 => 21 case 18 => 22 case 19 => 23 case 20 => 24 case 21 => 25 case 22 => 26 case 23 => 27
      case 24 => 28 case 25 => 29 case 26 => 30 case 27 => 31 case 28 => 16 case 29 => 17 case 30 => 18 case _ => 19)
    case 5 => (match y
      case 0 => 5 case 1 => 6 case 2 => 7 case 3 => 8 case 4 => 9 case 5 => 10 case 6 => 11 case 7 => 12
      case 8 => 13 case 9 => 14 case 10 => 15 case 11 => 0 case 12 => 1 case 13 => 2 case 14 => 3 case 15 => 4
      case 16 => 21 case 17 => 22 case 18 => 23 case 19 => 24 case 20 => 25 case 21 => 26 case 22 => 27 case 23 => 28
      case 24 => 29 case 25 => 30 case 26 => 31 case 27 => 16 case 28 => 17 case 29 => 18 case 30 => 19 case _ => 20)
    case 6 => (match y
      case 0 => 6 case 1 => 7 case 2 => 8 case 3 => 9 case 4 => 10 case 5 => 11 case 6 => 12 case 7 => 13
      case 8 => 14 case 9 => 15 case 10 => 0 case 11 => 1 case 12 => 2 case 13 => 3 case 14 => 4 case 15 => 5
      case 16 => 22 case 17 => 23 case 18 => 24 case 19 => 25 case 20 => 26 case 21 => 27 case 22 => 28 case 23 => 29
      case 24 => 30 case 25 => 31 case 26 => 16 case 27 => 17 case 28 => 18 case 29 => 19 case 30 => 20 case _ => 21)
    case _ => (match y
      case 0 => 7 case 1 => 8 case 2 => 9 case 3 => 10 case 4 => 11 case 5 => 12 case 6 => 13 case 7 => 14
      case 8 => 15 case 9 => 0 case 10 => 1 case 11 => 2 case 12 => 3 case 13 => 4 case 14 => 5 case 15 => 6
      case 16 => 23 case 17 => 24 case 18 => 25 case 19 => 26 case 20 => 27 case 21 => 28 case 22 => 29 case 23 => 30
      case 24 => 31 case 25 => 16 case 26 => 17 case 27 => 18 case 28 => 19 case 29 => 20 case 30 => 21 case _ => 22)
  }

  function SecondRows(x: Digit, y: Digit): Digit
    requires 8 <= x < 16
  {
    match x
    case 8 => (match y
      case 0 => 8 case 1 => 9 case 2 => 10 case 3 => 11 case 4 => 12 case 5 => 13 case 6 => 14 case 7 => 15
      case 8 => 0 case 9 => 1 case 10 => 2 case 11 => 3 case 12 => 4 case 13 => 5 case 14 => 6 case 15 => 7
      case 16 => 24 case 17 => 25 case 18 => 26 case 19 => 27 case 20 => 28 case 21 => 29 case 22 => 30 case 23 => 31
      case 24 => 16 case 25 => 17 case 26 => 18 case 27 => 19 case 28 => 20 case 29 => 21 case 30 => 22 case _ => 23)
    case 9 => (match y
      case 0 => 9 case 1 => 10 case 2 => 11 case 3 => 12 case 4 => 13 case 5 => 14 case 6 => 15 case 7 => 0
      case 8 => 1 case 9 => 2 case 10 => 3 case 11 => 4 case 12 => 5 case 13 => 6 case 14 => 7 case 15 => 8
      case 16 => 25 case 17 => 26 case 18 => 27 case 19 => 28 case 20 => 29 case 21 => 30 case 22 => 31 case 23 => 16
      case 24 => 17 case 25 => 18 case 26 => 19 case 27 => 20 case 28 => 21 case 29 => 22 case 30 => 23 case _ => 24)
    case 10 => (match y
      case 0 => 10 case 1 => 11 case 2 => 12 case 3 => 13 case 4 => 14 case 5 => 15 case 6 => 0 case 7 => 1
      case 8 => 2 case 9 => 3 case 10 => 4 case 11 => 5 case 12 => 6 case 13 => 7 case 14 => 8 case 15 => 9
      case 16 => 26 case 17 => 27 case 18 => 28 case 19 => 29 case 20 => 30 case 21 => 31 case 22 => 16 case 23 => 17
      case 24 => 18 case 25 => 19 case 26 => 20 case 27 => 21 case 28 => 22 case 29 => 23 case 30 => 24 case _ => 25)
    case 11 => (match y
      case 0 => 11 case 1 => 12 case 2 => 13 case 3 => 14 case 4 => 15 case 5 => 0 case 6 => 1 case 7 => 2
      case 8 => 3 case 9 => 4 case 10 => 5 case 11 => 6 case 12 => 7 case 13 => 8 case 14 => 9 case 15 => 10
      case 16 => 27 case 17 => 28 case 18 => 29 case 19 => 30 case 20 => 31 case 21 => 16 case 22 => 17 case 23 => 18
      case 24 => 19 case 25 => 20 case 26 => 21 case 27 => 22 case 28 => 23 case 29 => 24 case 30 => 25 case _ => 26)
    case 12 => (match y
      case 0 => 12 case 1 => 13 case 2 => 14 case 3 => 15 case 4 => 0 case 5 => 1 case 6 => 2 case 7 => 3
      case 8 => 4 case 9 => 5 case 10 => 6 case 11 => 7 case 12 => 8 case 13 => 9 case 14 => 10 case 15 => 11
      case 16 => 28 case 17 => 29 case 18 => 30 case 19 => 31 case 20 => 16 case 21 => 17 case 22 => 18 case 23 => 19
      case 24 => 20 case 25 => 21 case 26 => 22 case 27 => 23 case 28 => 24 case 29 => 25 case 30 => 26 case _ => 27)
    case 13 => (match y
      case 0 => 13 case 1 => 14 case 2 => 15 case 3 => 0 case 4 => 1 case 5 => 2 case 6 => 3 case 7 => 4
      case 8 => 5 case 9 => 6 case 10 => 7 case 11 => 8 case 12 => 9 case 13 => 10 case 14 => 11 case 15 => 12
      case 16 => 29 case 17 => 30 case 18 => 31 case 19 => 16 case 20 => 17 case 21 => 18 case 22 => 19 case 23 => 20
      case 24 => 21 case 25 => 22 case 26 => 23 case 27 => 24 case 28 => 25 case 29 => 26 case 30 => 27 case _ => 28)
    case 14 => (match y
      case 0 => 14 case 1 => 15 case 2 => 0 case 3 => 1 case 4 => 2 case 5 => 3 case 6 => 4 case 7 => 5
      case 8 => 6 case 9 => 7 case 10 => 8 case 11 => 9 case 12 => 10 case 13 => 11 case 14 => 12 case 15 => 13
      case 16 => 30 case 17 => 31 case 18 => 16 case 19 => 17 case 20 => 18 case 21 => 19 case 22 => 20 case 23 => 21
      case 24 => 22 case 25 => 23 case 26 => 24 case 27 => 25 case 28 => 26 case 29 => 27 case 30 => 28 case _ => 29)
    case _ => (match y
      case 0 => 15 case 1 => 0 case 2 => 1 case 3 => 2 case 4 => 3 case 5 => 4 case 6 => 5 case 7 => 6
      case 8 => 7 case 9 => 8 case 10 => 9 case 11 => 10 case 12 => 11 case 13 => 12 case 14 => 13 case 15 => 14
      case 16 => 31 case 17 => 16 case 18 => 17 case 19 => 18 case 20 => 19 case 21 => 20 case 22 => 21 case 23 => 22
      case 24 => 23 case 25 => 24 case 26 => 25 case 27 => 26 case 28 => 27 case 29 => 28 case 30 => 29 case _ => 30)
  }

  function ThirdRows(x: Digit, y: Digit): Digit
    requires 16 <= x < 24
  {
    match x
    case 16 => (match y
      case 0 => 16 case 1 => 31 case 2 => 30 case 3 => 29 case 4 => 28 case 5 => 27 case 6 => 26 case 7 => 25
      case 8 => 24 case 9 => 23 case 10 => 22 case 11 => 21 case 12 => 20 case 13 => 19 case 14 => 18 case 15 => 17
      case 16 => 0 case 17 => 15 case 18 => 14 case 19 => 13 case 20 => 12 case 21 => 11 case 22 => 10 case 23 => 9
      case 24 => 8 case 25 => 7 case 26 => 6 case 27 => 5 case 28 => 4 case 29 => 3 case 30 => 2 case _ => 1)
    case 17 => (match y
      case 0 => 17 case 1 => 16 case 2 => 31 case 3 => 30 case 4 => 29 case 5 => 28 case 6 => 27 case 7 => 26
      case 8 => 25 case 9 => 24 case 10 => 23 case 11 => 22 case 12 => 21 case 13 => 20 case 14 => 19 case 15 => 18
      case 16 => 1 case 17 => 0 case 18 => 15 case 19 => 14 case 20 => 13 case 21 => 12 case 22 => 11 case 23 => 10
      case 24 => 9 case 25 => 8 case 26 => 7 case 27 => 6 case 28 => 5 case 29 => 4 case 30 => 3 case _ => 2)
    case 18 => (match y
      case 0 => 18 case 1 => 17 case 2 => 16 case 3 => 31 case 4 => 30 case 5 => 29 case 6 => 28 case 7 => 27
      case 8 => 26 case 9 => 25 case 10 => 24 case 11 => 23 case 12 => 22 case 13 => 21 case 14 => 20 case 15 => 19
      case 16 => 2 case 17 => 1 case 18 => 0 case 19 => 15 case 20 => 14 case 21 => 13 case 22 => 12 case 23 => 11
      case 24 => 10 case 25 => 9 case 26 => 8 case 27 => 7 case 28 => 6 case 29 => 5 case 30 => 4 case _ => 3)
    case 19 => (match y
      case 0 => 19 case 1 => 18 case 2 => 17 case 3 => 16 case 4 => 31 case 5 => 30 case 6 => 29 case 7 => 28
      case 8 => 27 case 9 => 26 case 10 => 25 case 11 => 24 case 12 => 23 case 13 => 22 case 14 => 21 case 15 => 20
      case 16 => 3 case 17 => 2 case 18 => 1 case 19 => 0 case 20 => 15 case 21 => 14 case 22 => 13 case 23 => 12
      case 24 => 11 case 25 => 10 case 26 => 9 case 27 => 8 case 28 => 7 case 29 => 6 case 30 => 5 case _ => 4)
    case 20 => (match y
      case 0 => 20 case 1 => 19 case 2 => 18 case 3 => 17 case 4 => 16 case 5 => 31 case 6 => 30 case 7 => 29
      case 8 => 28 case 9 => 27 case 10 => 26 case 11 => 25 case 12 => 24 case 13 => 23 case 14 => 22 case 15 => 21
      case 16 => 4 case 17 => 3 case 18 => 2 case 19 => 1 case 20 => 0 case 21 => 15 case 22 => 14 case 23 => 13
      case 24 => 12 case 25 => 11 case 26 => 10 case 27 => 9 case 28 => 8 case 29 => 7 case 30 => 6 case _ => 5)
    case 21 => (match y
      case 0 => 21 case 1 => 20 case 2 => 19 case 3 => 18 case 4 => 17 case 5 => 16 case 6 => 31 case 7 => 30
      case 8 => 29 case 9 => 28 case 10 => 27 case 11 => 26 case 12 => 25 case 13 => 24 case 14 => 23 case 15 => 22
      case 16 => 5 case 17 => 4 case 18 => 3 case 19 => 2 case 20 => 1 case 21 => 0 case 22 => 15 case 23 => 14
      case 24 => 13 case 25 => 12 case 26 => 11 case 27 => 10 case 28 => 9 case 29 => 8 case 30 => 7 case _ => 6)
    case 22 => (match y
      case 0 => 22 case 1 => 21 case 2 => 20 case 3 => 19 case 4 => 18 case 5 => 17 case 6 => 16 case 7 => 31
      case 8 => 30 case 9 => 29 case 10 => 28 case 11 => 27 case 12 => 26 case 13 => 25 case 14 => 24 case 15 => 23
      case 16 => 6 case 17 => 5 case 18 => 4 case 19 => 3 case 20 => 2 case 21 => 1 case 22 => 0 case 23 => 15
      case 24 => 14 case 25 => 13 case 26 => 12 case 27 => 11 case 28 => 10 case 29 => 9 case 30 => 8 case _ => 7)
    case _ => (match y
      case 0 => 23 case 1 => 22 case 2 => 21 case 3 => 20 case 4 => 19 case 5 => 18 case 6 => 17 case 7 => 16
      case 8 => 31 case 9 => 30 case 10 => 29 case 11 => 28 case 12 => 27 case 13 => 26 case 14 => 25 case 15 => 24
      case 16 => 7 case 17 => 6 case 18 => 5 case 19 => 4 case 20 => 3 case 21 => 2 case 22 => 1 case 23 => 0
      case 24 => 15 case 25 => 14 case 26 => 13 case 27 => 12 case 28 => 11 case 29 => 10 case 30 => 9 case _ => 8)
  }

  function LastRows(x: Digit, y: Digit): Digit
    requires 24 <= x
  {
    match x
    case 24 => (match y
      case 0 => 24 case 1 => 23 case 2 => 22 case 3 => 21 case 4 => 20 case 5 => 19 case 6 => 18 case 7 => 17
      case 8 => 16 case 9 => 31 case 10 => 30 case 11 => 29 case 12 => 28 case 13 => 27 case 14 => 26 case 15 => 25
      case 16 => 8 case 17 => 7 case 18 => 6 case 19 => 5 case 20 => 4 case 21 => 3 case 22 => 2 case 23 => 1
      case 24 => 0 case 25 => 15 case 26 => 14 case 27 => 13 case 28 => 12 case 29 => 11 case 30 => 10 case _ => 9)
    case 25 => (match y
      case 0 => 25 case 1 => 24 case 2 => 23 case 3 => 22 case 4 => 21 case 5 => 20 case 6 => 19 case 7 => 18
      case 8 => 17 case 9 => 16 case 10 => 31 case 11 => 30 case 12 => 29 case 13 => 28 case 14 => 27 case 15 => 26
      case 16 => 9 case 17 => 8 case 18 => 7 case 19 => 6 case 20 => 5 case 21 => 4 case 22 => 3 case 23 => 2
      case 24 => 1 case 25 => 0 case 26 => 15 case 27 => 14 case 28 => 13 case 29 => 12 case 30 => 11 case _ => 10)
    case 26 => (match y
      case 0 => 26 case 1 => 25 case 2 => 24 case 3 => 23 case 4 => 22 case 5 => 21 case 6 => 20 case 7 => 19
      case 8 => 18 case 9 => 17 case 10 => 16 case 11 => 31 case 12 => 30 case 13 => 29 case 14 => 28 case 15 => 27
      case 16 => 10 case 17 => 9 case 18 => 8 case 19 => 7 case 20 => 6 case 21 => 5 case 22 => 4 case 23 => 3
      case 24 => 2 case 25 => 1 case 26 => 0 case 27 => 15 case 28 => 14 case 29 => 13 case 30 => 12 case _ => 11)
    case 27 => (match y
      case 0 => 27 case 1 => 26 case 2 => 25 case 3 => 24 case 4 => 23 case 5 => 22 case 6 => 21 case 7 => 20
      case 8 => 19 case 9 => 18 case 10 => 17 case 11 => 16 case 12 => 31 case 13 => 30 case 14 => 29 case 15 => 28
      case 16 => 11 case 17 => 10 case 18 => 9 case 19 => 8 case 20 => 7 case 21 => 6 case 22 => 5 case 23 => 4
      case 24 => 3 case 25 => 2 case 26 => 1 case 27 => 0 case 28 => 15 case 29 => 14 case 30 => 13 case _ => 12)
    case 28 => (match y
      case 0 => 28 case 1 => 27 case 2 => 26 case 3 => 25 case 4 => 24 case 5 => 23 case 6 => 22 case 7 => 21
      case 8 => 20 case 9 => 19 case 10 => 18 case 11 => 17 case 12 => 16 case 13 => 31 case 14 => 30 case 15 => 29
      case 16 => 12 case 17 => 11 case 18 => 10 case 19 => 9 case 20 => 8 case 21 => 7 case 22 => 6 case 23 => 5
      case 24 => 4 case 25 => 3 case 26 => 2 case 27 => 1 case 28 => 0 case 29 => 15 case 30 => 14 case _ => 13)
    case 29 => (match y
      case 0 => 29 case 1 => 28 case 2 => 27 case 3 => 26 case 4 => 25 case 5 => 24 case 6 => 23 case 7 => 22
      case 8 => 21 case 9 => 20 case 10 => 19 case 11 => 18 case 12 => 17 case 13 => 16 case 14 => 31 case 15 => 30
      case 16 => 13 case 17 => 12 case 18 => 11 case 19 => 10 case 20 => 9 case 21 => 8 case 22 => 7 case 23 => 6
      case 24 => 5 case 25 => 4 case 26 => 3 case 27 => 2 case 28 => 1 case 29 => 0 case 30 => 15 case _ => 14)
    case 30 => (match y
      case 0 => 30 case 1 => 29 case 2 => 28 case 3 => 27 case 4 => 26 case 5 => 25 case 6 => 24 case 7 => 23
      case 8 => 22 case 9 => 21 case 10 => 20 case 11 => 19 case 12 => 18 case 13 => 17 case 14 => 16 case 15 => 31
      case 16 => 14 case 17 => 13 case 18 => 12 case 19 => 11 case 20 => 10 case 21 => 9 case 22 => 8 case 23 => 7
      case 24 => 6 case 25 => 5 case 26 => 4 case 27 => 3 case 28 => 2 case 29 => 1 case 30 => 0 case _ => 15)
    case _ => (match y
      case 0 => 31 case 1 => 30 case 2 => 29 case 3 => 28 case 4 => 27 case 5 => 26 case 6 => 25 case 7 => 24
      case 8 => 23 case 9 => 22 case 10 => 21 case 11 => 20 case 12 => 19 case 13 => 18 case 14 => 17 case 15 => 16
      case 16 => 15 case 17 => 14 case 18 => 13 case 19 => 12 case 20 => 11 case 21 => 10 case 22 => 9 case 23 => 8
      case 24 => 7 case 25 => 6 case 26 => 5 case 27 => 4 case 28 => 3 case 29 => 2 case 30 => 1 case _ => 0)
  }

  /** d_mult_table at 32 * x + y. */
  function MultTable(x: Digit, y: Digit): Digit
  {
    if x < 8 then FirstRows(x, y) else if x < 16 then SecondRows(x, y) else if x < 24 then ThirdRows(x, y) else LastRows(x, y)
  }
}
