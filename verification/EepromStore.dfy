/**
  The emulated EEPROM: a RAM copy of the flash sector that reads and writes go
  to, and the flash itself, which a commit brings up to date.
*/
module EepromStore {
  import opened Bytes
  import opened Slots

  class Eeprom {
    const data: array<Byte>
    var flash: Image

    ghost predicate Valid() {
      data.Length == SIZE
    }

    function Contents(): Image
      requires Valid()
      reads data
    {
      data[..]
    }

    /** What a power cycle would bring back is what is in force now. */
    ghost predicate Committed()
      requires Valid()
      reads this, data
    {
      flash == Contents()
    }

    /** `EEPROM.begin(200)`: the RAM copy is read from flash. */
    constructor (flash: Image)
      ensures Valid() && Contents() == flash && Committed() && fresh(data)
    {
      data := new Byte[SIZE](i requires 0 <= i < SIZE => flash[i]);
      this.flash := flash;
      new;
      assert data[..] == flash;
    }

    method Read(address: int) returns (value: Byte)
      requires Valid()
      ensures value == if 0 <= address < SIZE then Contents()[address] else 0
    {
      if address < 0 || address >= data.Length {
        return 0;
      }
      value := data[address];
    }

    method Write(address: int, value: Byte)
      requires Valid()
      modifies data
      ensures Contents() == if 0 <= address < SIZE then old(Contents())[address := value] else old(Contents())
    {
      if address < 0 || address >= data.Length {
        return;
      }
      data[address] := value;
    }

    method Commit()
      requires Valid()
      modifies this
      ensures Committed()
    {
      flash := data[..];
    }
  }
}
