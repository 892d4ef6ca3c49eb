/**
 * The in-memory GATT mock: a device is a dictionary of services, a service a
 * dictionary of characteristics, and a characteristic a string value that
 * can be read, overwritten and notified. Adding under a key that is already
 * present replaces the old entry with a fresh object.
 */
module MockBLE {

  class Characteristic {
    var uuid: string
    var value: string

    constructor(uuid: string, initialValue: string)
      ensures this.uuid == uuid && value == initialValue
    {
      this.uuid := uuid;
      value := initialValue;
    }

    method Read() returns (v: string)
      ensures v == value
    {
      v := value;
    }

    /** Replaces the value; the uuid stays. */
    method Write(newValue: string)
      modifies this`value
      ensures value == newValue && uuid == old(uuid)
    {
      value := newValue;
    }

    /** Only logs: changes neither field. */
    method Notify()
      ensures value == old(value) && uuid == old(uuid)
    {
    }
  }

  class Service {
    var characteristics: map<string, Characteristic>

    /** The value under each registered uuid. */
    ghost function Contents(): map<string, string>
      reads this, characteristics.Values
    {
      map u | u in characteristics :: characteristics[u].value
    }

    /** Every entry is registered under its own uuid. */
    ghost predicate Valid()
      reads this, characteristics.Values
    {
      forall u | u in characteristics :: characteristics[u].uuid == u
    }

    constructor()
      ensures characteristics == map[] && Contents() == map[] && Valid()
    {
      characteristics := map[];
    }

    /** Registers a fresh characteristic under `uuid`, replacing any earlier one. */
    method AddCharacteristic(uuid: string, initialValue: string)
      modifies this`characteristics
      ensures uuid in characteristics && fresh(characteristics[uuid])
      ensures characteristics == old(characteristics)[uuid := characteristics[uuid]]
      ensures Contents() == old(Contents())[uuid := initialValue]
      ensures old(Valid()) ==> Valid()
      ensures GetCharacteristic(uuid) != null
      ensures GetCharacteristic(uuid).uuid == uuid && GetCharacteristic(uuid).value == initialValue
    {
      var c := new Characteristic(uuid, initialValue);
      characteristics := characteristics[uuid := c];
      assert Contents() == old(Contents())[uuid := initialValue];
    }

    /** The characteristic registered under `uuid`, or null. */
    function GetCharacteristic(uuid: string): (c: Characteristic?)
      reads this
      ensures c == null <==> uuid !in characteristics
      ensures c != null ==> c == characteristics[uuid]
    {
      if uuid in characteristics then characteristics[uuid] else null
    }
  }

  class Device {
    var services: map<string, Service>

    /** The characteristics held by the services. */
    ghost function CharacteristicObjects(): set<Characteristic>
      reads this, services.Values
    {
      set s, c | s in services.Values && c in s.characteristics.Values :: c
    }

    /** The value of each characteristic of each service, by uuid. */
    ghost function Contents(): map<string, map<string, string>>
      reads this, services.Values, CharacteristicObjects()
    {
      map u | u in services :: services[u].Contents()
    }

    constructor()
      ensures services == map[] && Contents() == map[]
    {
      services := map[];
    }

    /** Registers a fresh, empty service under `uuid`, replacing any earlier one. */
    method AddService(uuid: string) returns (s: Service)
      modifies this`services
      ensures fresh(s) && s.characteristics == map[]
      ensures services == old(services)[uuid := s]
      ensures Contents() == old(Contents())[uuid := map[]]
    {
      s := new Service();
      services := services[uuid := s];
      forall u | u in services
        ensures Contents()[u] == old(Contents())[uuid := map[]][u]
      {
        if u != uuid {
          assert services[u] == old(services[u]);
        }
      }
    }

    /** The service registered under `uuid`, or null. */
    function GetService(uuid: string): (s: Service?)
      reads this
      ensures s == null <==> uuid !in services
      ensures s != null ==> s == services[uuid]
    {
      if uuid in services then services[uuid] else null
    }
  }

  /** Overwriting one key adds at most the new value to the values of a map. */
  lemma ValuesOfUpdate<K, V>(m: map<K, V>, k: K, v: V)
    ensures m[k := v].Values <= m.Values + {v}
  {
    forall x | x in m[k := v].Values
      ensures x in m.Values + {v}
    {
      var key :| key in m[k := v] && m[k := v][key] == x;
      if key != k {
        assert m[key] == x;
      }
    }
  }
}
