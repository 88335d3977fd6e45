/** RestaurantService: reads and edits the restaurant table of the
    restaurant service. */
module Restaurants {
  import opened Wrappers
  import opened Shared
  import opened Persistence

  datatype Restaurant = Restaurant(restaurantId: Uuid, name: string, address: string, phoneNumber: string)

  datatype RestaurantRequest = RestaurantRequest(name: string, address: string, phoneNumber: string)

  datatype RestaurantResponse = RestaurantResponse(restaurantId: Uuid, name: string, address: string, phoneNumber: string)

  /** The two not-found exceptions of the restaurant service, with their
      messages. */
  datatype CatalogError = RestaurantNotFound(message: string) | DishNotFound(message: string)

  function RestaurantNotFoundFor(id: Uuid): CatalogError {
    RestaurantNotFound("Restaurant with the given ID not found. ID: " + id)
  }

  /** The property copy from entity to response. */
  function ToResponse(r: Restaurant): RestaurantResponse {
    RestaurantResponse(r.restaurantId, r.name, r.address, r.phoneNumber)
  }

  /** Every restaurant is stored under its own id. */
  ghost predicate RestaurantsKeyed(rows: map<Uuid, Restaurant>) {
    forall k | k in rows :: rows[k].restaurantId == k
  }

  /** A response list made restaurant by restaurant holds the response of
      every restaurant. */
  lemma RestaurantResponsesCover(all: seq<Restaurant>, r: seq<RestaurantResponse>, x: Restaurant)
    requires |r| == |all| && forall i | 0 <= i < |r| :: r[i] == ToResponse(all[i])
    requires x in all
    ensures ToResponse(x) in r
  {
    var i :| 0 <= i < |all| && all[i] == x;
    assert r[i] == ToResponse(x);
  }

  class RestaurantService {
    const restaurants: Repository<Restaurant>

    ghost predicate Valid()
      reads this, restaurants
    {
      restaurants.Valid() && RestaurantsKeyed(restaurants.rows)
    }

    constructor (restaurants: Repository<Restaurant>)
      ensures this.restaurants == restaurants
    {
      this.restaurants := restaurants;
    }

    /** One response per stored restaurant, in repository order. */
    method GetAllRestaurants() returns (r: seq<RestaurantResponse>)
      requires Valid()
      ensures |r| == |restaurants.order|
      ensures forall i | 0 <= i < |r| :: r[i] == ToResponse(restaurants.rows[restaurants.order[i]])
      ensures forall k | k in restaurants.rows :: ToResponse(restaurants.rows[k]) in r
    {
      var all := restaurants.FindAll();
      r := [];
      for i := 0 to |all|
        invariant |r| == i
        invariant forall j | 0 <= j < i :: r[j] == ToResponse(all[j])
      {
        r := r + [ToResponse(all[i])];
      }
      forall k | k in restaurants.rows
        ensures ToResponse(restaurants.rows[k]) in r
      {
        ListedCovers(restaurants.order, restaurants.rows, k);
        RestaurantResponsesCover(all, r, restaurants.rows[k]);
      }
    }

    function GetRestaurantById(id: Uuid): (r: Result<RestaurantResponse, CatalogError>)
      reads this, restaurants
      requires Valid()
      ensures r.Failure? <==> id !in restaurants.rows
      ensures r.Failure? ==> r.error == RestaurantNotFoundFor(id)
      ensures r.Success? ==> r.value == ToResponse(restaurants.rows[id]) && r.value.restaurantId == id
    {
      if id in restaurants.rows then Success(ToResponse(restaurants.rows[id]))
      else Failure(RestaurantNotFoundFor(id))
    }

    /** Stores a restaurant under the fresh id `newId` (the UUID the
        persistence layer generates) and returns that id. */
    method AddRestaurant(request: RestaurantRequest, newId: Uuid) returns (id: Uuid)
      requires Valid() && newId !in restaurants.rows
      modifies restaurants
      ensures Valid()
      ensures id == newId
      ensures restaurants.rows == old(restaurants.rows)[id := Restaurant(id, request.name, request.address, request.phoneNumber)]
      ensures restaurants.FindAll() == old(restaurants.FindAll()) + [Restaurant(id, request.name, request.address, request.phoneNumber)]
      ensures GetRestaurantById(id) == Success(RestaurantResponse(id, request.name, request.address, request.phoneNumber))
    {
      ListedAppend(restaurants.order, restaurants.rows, newId, Restaurant(newId, request.name, request.address, request.phoneNumber));
      restaurants.Save(newId, Restaurant(newId, request.name, request.address, request.phoneNumber));
      id := newId;
    }

    /** Replaces name, address and phone number of a stored restaurant. */
    method UpdateRestaurant(id: Uuid, request: RestaurantRequest) returns (r: Result<RestaurantResponse, CatalogError>)
      requires Valid()
      modifies restaurants
      ensures Valid()
      ensures id !in old(restaurants.rows) ==> r == Failure(RestaurantNotFoundFor(id)) && unchanged(restaurants)
      ensures id in old(restaurants.rows) ==>
        var updated := Restaurant(id, request.name, request.address, request.phoneNumber);
        && restaurants.rows == old(restaurants.rows)[id := updated]
        && restaurants.order == old(restaurants.order)
        && r == Success(ToResponse(updated))
    {
      if id !in restaurants.rows {
        return Failure(RestaurantNotFoundFor(id));
      }
      var restaurant := restaurants.rows[id];
      restaurant := restaurant.(name := request.name, address := request.address, phoneNumber := request.phoneNumber);
      restaurants.Save(id, restaurant);
      r := Success(ToResponse(restaurant));
    }

    /** Removes a stored restaurant, or reports that there is none. */
    method DeleteRestaurant(id: Uuid) returns (r: Outcome<CatalogError>)
      requires Valid()
      modifies restaurants
      ensures Valid()
      ensures id in old(restaurants.rows) ==>
        && r == Pass
        && restaurants.rows == old(restaurants.rows) - {id}
        && restaurants.order == Without(old(restaurants.order), id)
      ensures id !in old(restaurants.rows) ==> r == Fail(RestaurantNotFoundFor(id)) && unchanged(restaurants)
    {
      if id in restaurants.rows {
        restaurants.DeleteById(id);
        r := Pass;
      } else {
        r := Fail(RestaurantNotFoundFor(id));
      }
    }
  }
}
